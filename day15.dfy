// Day 15 of aoc2022/day15.py: sensors, the beacons they report, and the
// half-open spans of a row each sensor rules out.
module Day15 {
  import opened Wrappers
  import Seqs
  import Text
  import Coords

  // ---------------------------------------------------------------------
  // Spans

  /** `Span(lo, hi)`: the integers from `lo` up to, but not including, `hi`. */
  datatype Span = Span(lo: int, hi: int)

  /** `i in span`. */
  predicate Contains(s: Span, i: int) {
    s.lo <= i < s.hi
  }

  function Max(a: int, b: int): int { if a >= b then a else b }
  function Min(a: int, b: int): int { if a <= b then a else b }

  /** `Span.centered(i, d)`: the integers at most `d` away from `i`. */
  function Centered(i: int, d: int): (r: Span)
    ensures d >= 0 ==> r.hi - r.lo == 2 * d + 1
    ensures forall j :: Contains(r, j) <==> i - d <= j <= i + d
  {
    Span(i - d, i + d + 1)
  }

  /** The integers of `[a, b)` as a set. */
  function Range(a: int, b: int): (r: set<int>)
    ensures forall i :: i in r <==> a <= i < b
  {
    set i | a <= i < b && Contains(Span(a, b), i)
  }

  /** `[a, b)` holds `b - a` integers, or none. */
  lemma {:induction false} RangeSize(a: int, b: int)
    ensures |Range(a, b)| == Max(0, b - a)
    decreases b - a
  {
    if b > a {
      RangeSize(a, b - 1);
      assert Range(a, b) == Range(a, b - 1) + {b - 1};
    } else {
      assert Range(a, b) == {};
    }
  }

  /** The integers covered by at least one of the spans. */
  function Cover(spans: seq<Span>): set<int>
  {
    if |spans| == 0 then {} else Cover(spans[..|spans| - 1]) + Range(spans[|spans| - 1].lo, spans[|spans| - 1].hi)
  }

  /** An integer is covered exactly when some span contains it. */
  lemma {:induction false} CoverMember(spans: seq<Span>, i: int)
    ensures i in Cover(spans) <==> exists k :: 0 <= k < |spans| && Contains(spans[k], i)
  {
    if |spans| > 0 {
      var front, last := spans[..|spans| - 1], spans[|spans| - 1];
      CoverMember(front, i);
      if i in Cover(spans) {
        if i in Cover(front) {
          var k :| 0 <= k < |front| && Contains(front[k], i);
          assert spans[k] == front[k];
        } else {
          assert Contains(spans[|spans| - 1], i);
        }
      }
      if exists k :: 0 <= k < |spans| && Contains(spans[k], i) {
        var k :| 0 <= k < |spans| && Contains(spans[k], i);
        if k < |front| {
          assert front[k] == spans[k];
        } else {
          assert i in Range(last.lo, last.hi);
        }
      }
    }
  }

  /** The covered integers do not depend on the order of the spans. */
  lemma CoverSame(a: seq<Span>, b: seq<Span>)
    requires multiset(a) == multiset(b)
    ensures Cover(a) == Cover(b)
  {
    forall i | i in Cover(a)
      ensures i in Cover(b)
    {
      CoverMember(a, i);
      CoverMember(b, i);
      var k :| 0 <= k < |a| && Contains(a[k], i);
      assert a[k] in multiset(b);
      var j :| 0 <= j < |b| && b[j] == a[k];
    }
    forall i | i in Cover(b)
      ensures i in Cover(a)
    {
      CoverMember(a, i);
      CoverMember(b, i);
      var k :| 0 <= k < |b| && Contains(b[k], i);
      assert b[k] in multiset(a);
      var j :| 0 <= j < |a| && a[j] == b[k];
    }
  }

  lemma CoverSnoc(spans: seq<Span>, s: Span)
    ensures Cover(spans + [s]) == Cover(spans) + Range(s.lo, s.hi)
  {
    assert (spans + [s])[..|spans|] == spans;
  }

  // ---------------------------------------------------------------------
  // Sorting by the lower end

  predicate SortedByLo(s: seq<Span>) {
    forall i, j :: 0 <= i < j < |s| ==> s[i].lo <= s[j].lo
  }

  /** Put `x` after every span whose lower end is not above its own. */
  function InsertByLo(s: seq<Span>, x: Span): (r: seq<Span>)
    ensures multiset(r) == multiset(s) + multiset{x}
  {
    if |s| == 0 then [x]
    else if x.lo < s[0].lo then [x] + s
    else
      assert s == [s[0]] + s[1..];
      [s[0]] + InsertByLo(s[1..], x)
  }

  /** Inserting into a sorted sequence keeps it sorted. */
  lemma {:induction false} InsertSorted(s: seq<Span>, x: Span)
    requires SortedByLo(s)
    ensures SortedByLo(InsertByLo(s, x))
  {
    if |s| > 0 && x.lo >= s[0].lo {
      var rest := InsertByLo(s[1..], x);
      InsertSorted(s[1..], x);
      forall k | 0 <= k < |rest|
        ensures s[0].lo <= rest[k].lo
      {
        assert rest[k] in multiset(rest);
        if rest[k] != x {
          assert rest[k] in multiset(s[1..]);
          assert rest[k] in s[1..];
        }
      }
    }
  }

  /**
   * `spans.sort(key=lambda s: s.lo)` on a copy: a stable sort by the lower
   * end, so spans with equal lower ends keep their order.
   */
  function SortByLo(s: seq<Span>): (r: seq<Span>)
    ensures SortedByLo(r)
    ensures multiset(r) == multiset(s)
    ensures |r| == |s|
  {
    if |s| == 0 then []
    else
      var r := InsertByLo(SortByLo(s[..|s| - 1]), s[|s| - 1]);
      InsertSorted(SortByLo(s[..|s| - 1]), s[|s| - 1]);
      assert s == s[..|s| - 1] + [s[|s| - 1]];
      assert |r| == |multiset(r)|;
      r
  }

  // ---------------------------------------------------------------------
  // Lengths of the union

  /** Every integer of `c` lies below `top`. */
  predicate Below(c: set<int>, top: int) {
    forall i :: i in c ==> i < top
  }

  /** Every integer of `[from, top)` is in `c`. */
  predicate Filled(c: set<int>, from: int, top: int) {
    forall i :: from <= i < top ==> i in c
  }

  /**
   * One span of the sweep: everything covered so far lies below `highest`,
   * and the part of `s` below `highest` is covered already, so `s` adds
   * exactly `[max(s.lo, highest), s.hi)`.
   */
  lemma SweepStep(prefix: seq<Span>, s: Span, highest: int)
    requires Below(Cover(prefix), highest) && Filled(Cover(prefix), s.lo, highest)
    ensures |Cover(prefix + [s])| == |Cover(prefix)| + Max(0, s.hi - Max(s.lo, highest))
  {
    var start := Max(s.lo, highest);
    CoverSnoc(prefix, s);
    assert Cover(prefix + [s]) == Cover(prefix) + Range(start, s.hi);
    assert Cover(prefix) !! Range(start, s.hi);
    RangeSize(start, s.hi);
  }

  /** After the step everything covered lies below the new `highest`, and the next span's part below it is covered. */
  lemma SweepReach(prefix: seq<Span>, s: Span, highest: int, nextLo: int)
    requires Below(Cover(prefix), highest) && Filled(Cover(prefix), s.lo, highest)
    requires nextLo >= s.lo
    ensures Below(Cover(prefix + [s]), Max(highest, s.hi))
    ensures Filled(Cover(prefix + [s]), nextLo, Max(highest, s.hi))
  {
    CoverSnoc(prefix, s);
  }

  /**
   * `Span.total_len(spans)`: sweep the spans in order of their lower ends,
   * counting only the part of each above everything counted so far.  It
   * reads `spans[0]` first, so no spans is an error.
   */
  method TotalLen(spans: seq<Span>) returns (total: Option<int>)
    ensures total.Some? <==> |spans| > 0
    ensures total.Some? ==> total.value == |Cover(spans)|
  {
    if |spans| == 0 {
      return None;
    }
    var sorted := SortByLo(spans);
    var highest := sorted[0].lo - 1;
    var len := 0;
    var k := 0;
    while k < |sorted|
      invariant 0 <= k <= |sorted|
      invariant len == |Cover(sorted[..k])|
      invariant Below(Cover(sorted[..k]), highest)
      invariant k < |sorted| ==> Filled(Cover(sorted[..k]), sorted[k].lo, highest)
    {
      var span := sorted[k];
      var start := Max(span.lo, highest);
      var end := span.hi;
      var spanLen := end - start;
      assert sorted[..k + 1] == sorted[..k] + [span];
      SweepStep(sorted[..k], span, highest);
      ghost var nextLo := if k + 1 < |sorted| then sorted[k + 1].lo else span.lo;
      assert nextLo >= span.lo;
      SweepReach(sorted[..k], span, highest, nextLo);
      len := len + Max(0, spanLen);
      highest := Max(highest, end);
      k := k + 1;
    }
    assert sorted[..k] == sorted;
    CoverSame(spans, sorted);
    return Some(len);
  }

  /** Every integer of `c` inside `[lo, hi)` lies below `top`. */
  predicate BelowIn(c: set<int>, lo: int, hi: int, top: int) {
    forall i :: i in c && lo <= i < hi ==> i < top
  }

  /** Every integer of `[from, top)` inside `[lo, hi)` is in `c`. */
  predicate FilledIn(c: set<int>, lo: int, hi: int, from: int, top: int) {
    forall i :: from <= i < top && lo <= i < hi ==> i in c
  }

  /** The bounded sweep's step: as `SweepStep`, inside `[lo, hi)`. */
  lemma BoundedStep(prefix: seq<Span>, s: Span, highest: int, lo: int, hi: int)
    requires lo <= highest
    requires BelowIn(Cover(prefix), lo, hi, highest) && FilledIn(Cover(prefix), lo, hi, s.lo, highest)
    ensures |Cover(prefix + [s]) * Range(lo, hi)| ==
      |Cover(prefix) * Range(lo, hi)| + Max(0, Min(hi, s.hi) - Max(s.lo, highest))
  {
    var start, end := Max(s.lo, highest), Min(hi, s.hi);
    CoverSnoc(prefix, s);
    assert Cover(prefix + [s]) * Range(lo, hi) == Cover(prefix) * Range(lo, hi) + Range(start, end);
    assert Cover(prefix) * Range(lo, hi) !! Range(start, end);
    RangeSize(start, end);
  }

  /** The bounded sweep's invariants after one more span. */
  lemma BoundedReach(prefix: seq<Span>, s: Span, highest: int, lo: int, hi: int, nextLo: int)
    requires BelowIn(Cover(prefix), lo, hi, highest) && FilledIn(Cover(prefix), lo, hi, s.lo, highest)
    requires nextLo >= s.lo
    ensures BelowIn(Cover(prefix + [s]), lo, hi, Max(highest, Min(hi, s.hi)))
    ensures FilledIn(Cover(prefix + [s]), lo, hi, nextLo, Max(highest, Min(hi, s.hi)))
  {
    CoverSnoc(prefix, s);
  }

  /** How many integers of `c` lie in `[lo, hi)`. */
  function CountIn(c: set<int>, lo: int, hi: int): nat {
    |c * Range(lo, hi)|
  }

  /** One span of the bounded sweep over the sorted spans. */
  lemma BoundedIter(sorted: seq<Span>, k: nat, highest: int, lo: int, hi: int)
    requires SortedByLo(sorted) && k < |sorted| && lo <= highest
    requires BelowIn(Cover(sorted[..k]), lo, hi, highest)
    requires FilledIn(Cover(sorted[..k]), lo, hi, sorted[k].lo, highest)
    ensures CountIn(Cover(sorted[..k + 1]), lo, hi) ==
      CountIn(Cover(sorted[..k]), lo, hi) + Max(0, Min(hi, sorted[k].hi) - Max(sorted[k].lo, highest))
    ensures BelowIn(Cover(sorted[..k + 1]), lo, hi, Max(highest, Min(hi, sorted[k].hi)))
    ensures k + 1 < |sorted| ==> FilledIn(Cover(sorted[..k + 1]), lo, hi, sorted[k + 1].lo, Max(highest, Min(hi, sorted[k].hi)))
  {
    assert sorted[..k + 1] == sorted[..k] + [sorted[k]];
    BoundedStep(sorted[..k], sorted[k], highest, lo, hi);
    var nextLo := if k + 1 < |sorted| then sorted[k + 1].lo else sorted[k].lo;
    BoundedReach(sorted[..k], sorted[k], highest, lo, hi, nextLo);
  }

  /** The bounded sweep may stop once it has reached `hi`, or at the end of the spans. */
  lemma BoundedDone(spans: seq<Span>, sorted: seq<Span>, k: nat, highest: int, lo: int, hi: int)
    requires sorted == SortByLo(spans) && k <= |sorted|
    requires k < |sorted| ==> highest >= hi && FilledIn(Cover(sorted[..k]), lo, hi, sorted[k].lo, highest)
    ensures CountIn(Cover(spans), lo, hi) == CountIn(Cover(sorted[..k]), lo, hi)
  {
    if k < |sorted| {
      assert FilledIn(Cover(sorted[..k]), lo, hi, sorted[k].lo, hi);
    } else {
      assert sorted[..k] == sorted;
    }
    Saturated(sorted, k, lo, hi);
    CoverSame(spans, sorted);
  }

  /** Once everything from `sorted[m].lo` up to `hi` is covered, the later spans add nothing inside `[lo, hi)`. */
  lemma Saturated(sorted: seq<Span>, m: nat, lo: int, hi: int)
    requires SortedByLo(sorted) && m <= |sorted|
    requires m < |sorted| ==> FilledIn(Cover(sorted[..m]), lo, hi, sorted[m].lo, hi)
    ensures Cover(sorted) * Range(lo, hi) == Cover(sorted[..m]) * Range(lo, hi)
  {
    forall i | i in Cover(sorted) && lo <= i < hi
      ensures i in Cover(sorted[..m])
    {
      CoverMember(sorted, i);
      CoverMember(sorted[..m], i);
      var k :| 0 <= k < |sorted| && Contains(sorted[k], i);
      if k < m {
        assert sorted[..m][k] == sorted[k];
      } else {
        assert sorted[m].lo <= sorted[k].lo <= i;
      }
    }
    forall i | i in Cover(sorted[..m])
      ensures i in Cover(sorted)
    {
      CoverMember(sorted, i);
      CoverMember(sorted[..m], i);
      var k :| 0 <= k < m && Contains(sorted[..m][k], i);
      assert sorted[k] == sorted[..m][k];
    }
  }

  /**
   * `Span.total_len_bounded(spans, lo, hi)`: the same sweep, clipped to
   * `[lo, hi)`, stopping after the first span that reaches `hi`.
   */
  method TotalLenBounded(spans: seq<Span>, lo: int, hi: int) returns (total: int)
    ensures total == CountIn(Cover(spans), lo, hi)
  {
    var sorted := SortByLo(spans);
    var highest := lo;
    var len := 0;
    var k := 0;
    while k < |sorted|
      invariant 0 <= k <= |sorted|
      invariant lo <= highest
      invariant len == CountIn(Cover(sorted[..k]), lo, hi)
      invariant BelowIn(Cover(sorted[..k]), lo, hi, highest)
      invariant k < |sorted| ==> FilledIn(Cover(sorted[..k]), lo, hi, sorted[k].lo, highest)
    {
      var span := sorted[k];
      var start := Max(span.lo, highest);
      var end := Min(hi, span.hi);
      var spanLen := end - start;
      BoundedIter(sorted, k, highest, lo, hi);
      len := len + Max(0, spanLen);
      highest := Max(highest, end);
      k := k + 1;
      if span.hi >= hi {
        BoundedDone(spans, sorted, k, highest, lo, hi);
        return len;
      }
    }
    BoundedDone(spans, sorted, k, highest, lo, hi);
    return len;
  }

  /**
   * `Span.find_gap(spans)`, with the upper end of `range(4_000_000)` as a
   * parameter: collect every covered integer, then take the rest of
   * `[0, bound)`.
   */
  method FindGap(spans: seq<Span>, bound: int) returns (gap: set<int>)
    ensures gap == Range(0, bound) - Cover(spans)
    ensures forall i :: i in gap <==> 0 <= i < bound && forall k :: 0 <= k < |spans| ==> !Contains(spans[k], i)
  {
    var all := Range(0, bound);
    var impossible: set<int> := {};
    var k := 0;
    while k < |spans|
      invariant 0 <= k <= |spans|
      invariant impossible == Cover(spans[..k])
    {
      CoverSnoc(spans[..k], spans[k]);
      assert spans[..k + 1] == spans[..k] + [spans[k]];
      impossible := impossible + Range(spans[k].lo, spans[k].hi);
      k := k + 1;
    }
    assert spans[..k] == spans;
    gap := all - impossible;
    forall i
      ensures i in gap <==> 0 <= i < bound && forall k :: 0 <= k < |spans| ==> !Contains(spans[k], i)
    {
      CoverMember(spans, i);
    }
  }

  // ---------------------------------------------------------------------
  // Readings

  type Point = Coords.Coords

  /** One sensor, the closest beacon it reports, and the distance between them. */
  datatype Reading = Reading(sensor: Point, beacon: Point, distance: int)

  /** `reading.vert_span()`: the rows the sensor's range reaches. */
  function VertSpan(r: Reading): (s: Span)
    ensures forall y :: Contains(s, y) <==> Coords.AbsInt(r.sensor.y - y) <= r.distance
  {
    Centered(r.sensor.y, r.distance)
  }

  /**
   * `reading.hor_span(y)`: the cells of row `y` within the sensor's range.
   * The half-width is clamped at 0, so the `Span(0, 0)` branch is never
   * taken and a row out of range still yields the sensor's own column.
   */
  function HorSpan(r: Reading, y: int): (s: Span)
    ensures forall x :: Contains(s, x) <==>
      Coords.ManhattanDistance(r.sensor, Coords.Coords(x, y)) <= r.distance || x == r.sensor.x
  {
    var horDist := Max(0, r.distance - Coords.AbsInt(r.sensor.y - y));
    if horDist < 0 then Span(0, 0) else Centered(r.sensor.x, horDist)
  }

  /** The clamp makes every row span hold at least the sensor's column. */
  lemma HorSpanNeverEmpty(r: Reading, y: int)
    ensures HorSpan(r, y).hi - HorSpan(r, y).lo >= 1
    ensures HorSpan(r, y) != Span(0, 0) || r.sensor.x == 0
  {
    assert Contains(HorSpan(r, y), r.sensor.x);
  }

  /**
   * A sensor out of range of row 10 still rules out its own column there:
   * the sensor at (0, 100) whose beacon is at (0, 101).
   */
  lemma OutOfRangeColumnKept()
    ensures Contains(HorSpan(Create(Coords.Coords(0, 100), Coords.Coords(0, 101)), 10), 0)
    ensures Coords.ManhattanDistance(Coords.Coords(0, 100), Coords.Coords(0, 10)) > Create(Coords.Coords(0, 100), Coords.Coords(0, 101)).distance
  {
    var sensor, beacon := Coords.Coords(0, 100), Coords.Coords(0, 101);
    assert Coords.ManhattanDistance(sensor, Coords.Coords(0, 10)) == 90;
    assert HorSpan(Reading(sensor, beacon, 1), 10) == Span(0, 1);
    assert Create(sensor, beacon) == Reading(sensor, beacon, 1) by {
      assert Coords.ManhattanDistance(sensor, beacon) == 1;
    }
  }

  /**
   * `hor_span` without the clamp, as its empty-span branch intends: a row
   * out of range gets `Span(0, 0)`, and every row gets exactly the cells
   * within the sensor's range.
   */
  function HorSpanInRange(r: Reading, y: int): (s: Span)
    ensures forall x :: Contains(s, x) <==> Coords.ManhattanDistance(r.sensor, Coords.Coords(x, y)) <= r.distance
  {
    var horDist := r.distance - Coords.AbsInt(r.sensor.y - y);
    if horDist < 0 then Span(0, 0) else Centered(r.sensor.x, horDist)
  }

  /** `Reading.create(sensor, beacon)`: the distance is the Manhattan distance between them. */
  function Create(sensor: Point, beacon: Point): (r: Reading)
    ensures r.distance >= 0 && (r.distance == 0 <==> sensor == beacon)
  {
    Reading(sensor, beacon, Coords.ManhattanDistance(sensor, beacon))
  }

  /**
   * The sensor's spans cover its own beacon, and in every row they cover
   * exactly the cells no closer to the sensor than the beacon, plus the
   * sensor's column.
   */
  lemma CreateCoversBeacon(sensor: Point, beacon: Point)
    ensures Contains(HorSpan(Create(sensor, beacon), beacon.y), beacon.x)
    ensures Contains(HorSpanInRange(Create(sensor, beacon), beacon.y), beacon.x)
    ensures Contains(VertSpan(Create(sensor, beacon)), beacon.y)
  {
  }

  // ---------------------------------------------------------------------
  // Parsing

  const SensorPrefix: string := "Sensor at x="
  const ItemPrefix: string := " y="
  /** ": closest beacon is at x=", written word by word. */
  const BeaconPrefix: string := ":" + " closest" + " beacon" + " is" + " at" + " x="

  /** A reading line as the puzzle writes it. */
  function ShowReading(sensor: Point, beacon: Point): string
  {
    SensorPrefix + (Text.ShowInt(sensor.x) + ("," + (ItemPrefix + (Text.ShowInt(sensor.y)
      + (BeaconPrefix + (Text.ShowInt(beacon.x) + ("," + (ItemPrefix + Text.ShowInt(beacon.y)))))))))
  }

  /**
   * `parse_line(line)`: strip the words, leaving four comma-separated
   * integers.  Every piece must be an integer, and fewer than four pieces
   * is an error; pieces past the fourth are ignored.
   */
  function ParseLine(line: string): Option<Reading>
  {
    var template := Text.Replace(Text.Replace(Text.Replace(line, SensorPrefix, ""), ItemPrefix, ""), BeaconPrefix, ",");
    var parts := Text.Split(template, ',');
    match Text.ParseInts(parts)
    case None => None
    case Some(ns) =>
      if |ns| < 4 then None
      else Some(Create(Coords.Coords(ns[0], ns[1]), Coords.Coords(ns[2], ns[3])))
  }

  /** The words between the sensor and the beacon hold no " y=". */
  lemma SkipBeaconWords(rest: string)
    ensures Text.Replace(BeaconPrefix + rest, ItemPrefix, "") == BeaconPrefix + Text.Replace(rest, ItemPrefix, "")
  {
    var ws := [":", " closest", " beacon", " is", " at", " x="];
    assert Text.Concat(ws) == BeaconPrefix by {
      var w2, w3, w4, w5 := ws[..2], ws[..3], ws[..4], ws[..5];
      assert w2[..1] == [":"] && w3[..2] == w2 && w4[..3] == w3 && w5[..4] == w4 && ws[..5] == w5;
      assert Text.Concat(w2) == ":" + " closest";
      assert Text.Concat(w3) == ":" + " closest" + " beacon";
      assert Text.Concat(w4) == ":" + " closest" + " beacon" + " is";
      assert Text.Concat(w5) == ":" + " closest" + " beacon" + " is" + " at";
    }
    assert forall i :: 0 <= i < |ws| ==> Text.NoHit(ws[i], ItemPrefix) by {
      assert Text.NoHit(ws[0], ItemPrefix) && Text.NoHit(ws[1], ItemPrefix) && Text.NoHit(ws[2], ItemPrefix);
      assert Text.NoHit(ws[3], ItemPrefix) && Text.NoHit(ws[4], ItemPrefix) && Text.NoHit(ws[5], ItemPrefix);
    }
    Text.ReplaceNoHitWords(ws, rest, ItemPrefix, "");
  }

  /** The characters the numbers of a reading line never contain. */
  predicate Plain(a: string) {
    'S' !in a && ' ' !in a && ':' !in a && ',' !in a
  }

  lemma ShowIntPlain(n: int)
    ensures Plain(Text.ShowInt(n))
  {
    Text.ShowIntChars(n, 'S');
    Text.ShowIntChars(n, ' ');
    Text.ShowIntChars(n, ':');
    Text.ShowIntChars(n, ',');
  }

  /** The text after "Sensor at x=", with the four numbers `a`, `b`, `c`, `d`. */
  function Tail(a: string, b: string, c: string, d: string): string
  {
    a + ("," + (ItemPrefix + (b + (BeaconPrefix + (c + ("," + (ItemPrefix + d)))))))
  }

  /** The first replacement removes the leading words. */
  lemma StripSensor(a: string, b: string, c: string, d: string)
    requires Plain(a) && Plain(b) && Plain(c) && Plain(d)
    ensures Text.Replace(SensorPrefix + Tail(a, b, c, d), SensorPrefix, "") == Tail(a, b, c, d)
  {
    var t := Tail(a, b, c, d);
    Text.ReplaceHit(SensorPrefix, t, "");
    assert 'S' !in ItemPrefix && 'S' !in BeaconPrefix;
    var d1 := "," + (ItemPrefix + d);
    assert 'S' !in d1;
    var c1 := BeaconPrefix + (c + d1);
    assert 'S' !in c1;
    var b1 := "," + (ItemPrefix + (b + c1));
    assert 'S' !in b1;
    assert t == a + b1;
    Text.ReplaceAbsent(t, SensorPrefix, "");
  }

  /** The second replacement removes both " y=". */
  lemma StripItems(a: string, b: string, c: string, d: string)
    requires Plain(a) && Plain(b) && Plain(c) && Plain(d)
    ensures Text.Replace(Tail(a, b, c, d), ItemPrefix, "")
      == a + ("," + (b + (BeaconPrefix + (c + ("," + d)))))
  {
    var d1 := ItemPrefix + d;
    var c1 := c + ("," + d1);
    var b1 := ItemPrefix + (b + (BeaconPrefix + c1));
    Text.ReplaceAbsent(d, ItemPrefix, "");
    Text.ReplaceHit(ItemPrefix, d, "");
    assert Text.Replace(d1, ItemPrefix, "") == d;
    Text.ReplaceSkip(",", d1, ItemPrefix, "");
    Text.ReplaceSkip(c, "," + d1, ItemPrefix, "");
    assert Text.Replace(c1, ItemPrefix, "") == c + ("," + d);
    SkipBeaconWords(c1);
    Text.ReplaceSkip(b, BeaconPrefix + c1, ItemPrefix, "");
    Text.ReplaceHit(ItemPrefix, b + (BeaconPrefix + c1), "");
    assert Text.Replace(b1, ItemPrefix, "") == b + (BeaconPrefix + (c + ("," + d)));
    Text.ReplaceSkip(",", b1, ItemPrefix, "");
    Text.ReplaceSkip(a, "," + b1, ItemPrefix, "");
  }

  /** The third replacement turns the beacon's words into a comma. */
  lemma CommaBeacon(a: string, b: string, c: string, d: string)
    requires Plain(a) && Plain(b) && Plain(c) && Plain(d)
    ensures Text.Replace(a + ("," + (b + (BeaconPrefix + (c + ("," + d))))), BeaconPrefix, ",")
      == a + ("," + (b + ("," + (c + ("," + d)))))
  {
    var cd := c + ("," + d);
    Text.ReplaceSkip(a, "," + (b + (BeaconPrefix + cd)), BeaconPrefix, ",");
    Text.ReplaceSkip(",", b + (BeaconPrefix + cd), BeaconPrefix, ",");
    Text.ReplaceSkip(b, BeaconPrefix + cd, BeaconPrefix, ",");
    Text.ReplaceHit(BeaconPrefix, cd, ",");
    Text.ReplaceAbsent(cd, BeaconPrefix, ",");
  }

  /** Splitting four comma-free pieces joined by commas. */
  lemma SplitFour(a: string, b: string, c: string, d: string)
    requires Plain(a) && Plain(b) && Plain(c) && Plain(d)
    ensures Text.Split(a + ("," + (b + ("," + (c + ("," + d))))), ',') == [a, b, c, d]
  {
    var cd := c + ("," + d);
    var bcd := b + ("," + cd);
    Text.SplitNoSep(d, ',');
    assert cd == c + [','] + d;
    Text.SplitPrefix(c, d, ',');
    assert bcd == b + [','] + cd;
    Text.SplitPrefix(b, cd, ',');
    assert a + ("," + bcd) == a + [','] + bcd;
    Text.SplitPrefix(a, bcd, ',');
  }

  /** Four pieces that each read as a number read as the four numbers. */
  lemma ParseFour(p0: string, p1: string, p2: string, p3: string, w: int, x: int, y: int, z: int)
    requires Text.ParseInt(p0) == Some(w) && Text.ParseInt(p1) == Some(x)
    requires Text.ParseInt(p2) == Some(y) && Text.ParseInt(p3) == Some(z)
    ensures Text.ParseInts([p0, p1, p2, p3]) == Some([w, x, y, z])
  {
    var parts, ns := [p0, p1, p2, p3], [w, x, y, z];
    forall i | 0 <= i < |parts| ensures Text.ParseInt(parts[i]) == Some(ns[i]) {
      if i == 0 { assert parts[i] == p0; }
      else if i == 1 { assert parts[i] == p1; }
      else if i == 2 { assert parts[i] == p2; }
      else { assert parts[i] == p3; }
    }
    Text.ParseIntsOf(parts, ns);
  }

  /** `parse_line` reads back the four coordinates of a line written in the puzzle's format. */
  lemma ParseShowReading(sensor: Point, beacon: Point)
    ensures ParseLine(ShowReading(sensor, beacon)) == Some(Create(sensor, beacon))
  {
    var a, b, c, d := Text.ShowInt(sensor.x), Text.ShowInt(sensor.y), Text.ShowInt(beacon.x), Text.ShowInt(beacon.y);
    ShowIntPlain(sensor.x);
    ShowIntPlain(sensor.y);
    ShowIntPlain(beacon.x);
    ShowIntPlain(beacon.y);
    var line := ShowReading(sensor, beacon);
    assert line == SensorPrefix + Tail(a, b, c, d);
    StripSensor(a, b, c, d);
    var t1 := Text.Replace(line, SensorPrefix, "");
    assert t1 == Tail(a, b, c, d);
    StripItems(a, b, c, d);
    var t2 := Text.Replace(t1, ItemPrefix, "");
    assert t2 == a + ("," + (b + (BeaconPrefix + (c + ("," + d)))));
    CommaBeacon(a, b, c, d);
    var t3 := Text.Replace(t2, BeaconPrefix, ",");
    assert t3 == a + ("," + (b + ("," + (c + ("," + d)))));
    SplitFour(a, b, c, d);
    assert Text.Split(t3, ',') == [a, b, c, d];
    Text.ParseShowInt(sensor.x);
    Text.ParseShowInt(sensor.y);
    Text.ParseShowInt(beacon.x);
    Text.ParseShowInt(beacon.y);
    ParseFour(a, b, c, d, sensor.x, sensor.y, beacon.x, beacon.y);
  }

  // ---------------------------------------------------------------------
  // Solvers

  /** `parse_line` of each line, `None` where it raises. */
  function ParsedReadings(lines: seq<string>): (r: seq<Option<Reading>>)
    ensures |r| == |lines| && forall i :: 0 <= i < |lines| ==> r[i] == ParseLine(lines[i])
  {
    seq(|lines|, i requires 0 <= i < |lines| => ParseLine(lines[i]))
  }

  /** `[parse_line(line) for line in lines]`: none when some line fails to parse. */
  function Readings(lines: seq<string>): Option<seq<Reading>>
  {
    AllSome(ParsedReadings(lines))
  }

  /** The row part 1 asks about: 10 for the short example, 2,000,000 otherwise. */
  function TargetRow(lineCount: nat): int {
    if lineCount < 15 then 10 else 2_000_000
  }

  /** `[reading.hor_span(y) for reading in readings]`: the clamped span of row `y` for each reading, in order. */
  function RowSpans(rs: seq<Reading>, y: int): (r: seq<Span>)
    ensures |r| == |rs| && forall k :: 0 <= k < |rs| ==> r[k] == HorSpan(rs[k], y)
  {
    seq(|rs|, k requires 0 <= k < |rs| => HorSpan(rs[k], y))
  }

  /**
   * A cell of row `y` is covered by the clamped spans exactly when some
   * sensor reaches it or it is some sensor's own column.
   */
  lemma RowCoverMeaning(rs: seq<Reading>, y: int, x: int)
    ensures x in Cover(RowSpans(rs, y)) <==>
      exists k :: 0 <= k < |rs| &&
        (Coords.ManhattanDistance(rs[k].sensor, Coords.Coords(x, y)) <= rs[k].distance || x == rs[k].sensor.x)
  {
    var spans := RowSpans(rs, y);
    CoverMember(spans, x);
    if x in Cover(spans) {
      var k :| 0 <= k < |spans| && Contains(spans[k], x);
      assert Contains(HorSpan(rs[k], y), x);
    }
  }

  /** The corrected span of row `y` for each reading, in order. */
  function RowSpansInRange(rs: seq<Reading>, y: int): (r: seq<Span>)
    ensures |r| == |rs| && forall k :: 0 <= k < |rs| ==> r[k] == HorSpanInRange(rs[k], y)
  {
    seq(|rs|, k requires 0 <= k < |rs| => HorSpanInRange(rs[k], y))
  }

  /** With the corrected spans, a cell of row `y` is covered exactly when some sensor reaches it. */
  lemma RowCoverInRangeMeaning(rs: seq<Reading>, y: int, x: int)
    ensures x in Cover(RowSpansInRange(rs, y)) <==>
      exists k :: 0 <= k < |rs| && Coords.ManhattanDistance(rs[k].sensor, Coords.Coords(x, y)) <= rs[k].distance
  {
    var spans := RowSpansInRange(rs, y);
    CoverMember(spans, x);
    if x in Cover(spans) {
      var k :| 0 <= k < |spans| && Contains(spans[k], x);
      assert Coords.ManhattanDistance(rs[k].sensor, Coords.Coords(x, y)) <= rs[k].distance;
    }
  }

  /** The corrected spans cover no more of a row than the clamped ones. */
  lemma InRangeCoverIncluded(rs: seq<Reading>, y: int)
    ensures Cover(RowSpansInRange(rs, y)) <= Cover(RowSpans(rs, y))
  {
    forall x | x in Cover(RowSpansInRange(rs, y)) ensures x in Cover(RowSpans(rs, y)) {
      RowCoverInRangeMeaning(rs, y, x);
      RowCoverMeaning(rs, y, x);
    }
  }

  /**
   * `solve_p1(lines)`: the number of cells of the target row some sensor
   * reaches, less one.  `total_len` reads the first span, so no lines is
   * an error.
   */
  function Part1(lines: seq<string>): Option<int>
  {
    match Readings(lines)
    case None => None
    case Some(rs) =>
      if |rs| == 0 then None else Some(|Cover(RowSpans(rs, TargetRow(|lines|)))| - 1)
  }

  /**
   * Part 1 with the corrected spans: the number of cells of the target row
   * some sensor reaches, less one.
   */
  function Part1InRange(lines: seq<string>): Option<int>
  {
    match Readings(lines)
    case None => None
    case Some(rs) =>
      if |rs| == 0 then None else Some(|Cover(RowSpansInRange(rs, TargetRow(|lines|)))| - 1)
  }

  /** The corrected answer never exceeds the one the clamped spans give. */
  lemma Part1InRangeAtMost(lines: seq<string>)
    ensures Part1InRange(lines).Some? <==> Part1(lines).Some?
    ensures Part1InRange(lines).Some? ==> Part1InRange(lines).value <= Part1(lines).value
  {
    var rs := Readings(lines);
    if rs.Some? && |rs.value| > 0 {
      var y := TargetRow(|lines|);
      InRangeCoverIncluded(rs.value, y);
      Seqs.SubsetSize(Cover(RowSpansInRange(rs.value, y)), Cover(RowSpans(rs.value, y)));
    }
  }

  /** A subset is no larger than the set holding it. */
  /** Part 1 has an answer exactly when there are lines and every one parses. */
  lemma Part1Defined(lines: seq<string>)
    ensures Part1(lines).Some? <==> |lines| > 0 && forall i :: 0 <= i < |lines| ==> ParsedReadings(lines)[i].Some?
  {
    var p := ParsedReadings(lines);
    var r := AllSome(p);
    assert Part1(lines).Some? <==> r.Some? && |r.value| > 0;
    assert r.Some? <==> forall i :: 0 <= i < |p| ==> p[i].Some?;
    assert r.Some? ==> |r.value| == |lines|;
  }

  method SolveP1(lines: seq<string>) returns (answer: Option<int>)
    ensures answer == Part1(lines)
  {
    var readings := Readings(lines);
    if readings.None? {
      return None;
    }
    var spans := RowSpans(readings.value, TargetRow(|lines|));
    var total := TotalLen(spans);
    if total.None? {
      return None;
    }
    return Some(total.value - 1);
  }

  /** The row `solve_p2` searches, found once and written into the source. */
  const GapRow: int := 3411840
  /** The columns part 2 searches: `range(4_000_000)`, which is also the tuning multiplier. */
  const SearchBound: int := 4_000_000

  /** The columns of the searched row that no sensor reaches. */
  function Gap(rs: seq<Reading>): set<int>
  {
    Range(0, SearchBound) - Cover(RowSpans(rs, GapRow))
  }

  /**
   * A column is in the gap exactly when it is searched, out of every
   * sensor's range, and no sensor's own column.
   */
  lemma GapMeaning(rs: seq<Reading>, x: int)
    ensures x in Gap(rs) <==>
      0 <= x < SearchBound && forall k :: 0 <= k < |rs| ==>
        Coords.ManhattanDistance(rs[k].sensor, Coords.Coords(x, GapRow)) > rs[k].distance && x != rs[k].sensor.x
  {
    RowCoverMeaning(rs, GapRow, x);
  }

  /** The columns of the searched row that no sensor reaches, with the corrected spans. */
  function GapInRange(rs: seq<Reading>): set<int>
  {
    Range(0, SearchBound) - Cover(RowSpansInRange(rs, GapRow))
  }

  /** With the corrected spans, a column is in the gap exactly when it is searched and out of every sensor's range. */
  lemma GapInRangeMeaning(rs: seq<Reading>, x: int)
    ensures x in GapInRange(rs) <==>
      0 <= x < SearchBound && forall k :: 0 <= k < |rs| ==> Coords.ManhattanDistance(rs[k].sensor, Coords.Coords(x, GapRow)) > rs[k].distance
  {
    RowCoverInRangeMeaning(rs, GapRow, x);
  }

  /** The clamped spans' gap lies inside the corrected one. */
  lemma GapIncluded(rs: seq<Reading>)
    ensures Gap(rs) <= GapInRange(rs)
  {
    InRangeCoverIncluded(rs, GapRow);
  }

  /**
   * `solve_p2(lines)`: the tuning frequency of a column of the searched row
   * that no sensor reaches; the first element of an empty gap is an error.
   */
  method SolveP2(lines: seq<string>) returns (answer: Option<int>)
    ensures answer.Some? <==> Readings(lines).Some? && Gap(Readings(lines).value) != {}
    ensures answer.Some? ==> exists x :: x in Gap(Readings(lines).value) && answer.value == x * SearchBound + GapRow
  {
    var readings := Readings(lines);
    if readings.None? {
      return None;
    }
    var spans := RowSpans(readings.value, GapRow);
    var gap := FindGap(spans, SearchBound);
    if gap == {} {
      return None;
    }
    var x :| x in gap;
    return Some(x * SearchBound + GapRow);
  }
}
