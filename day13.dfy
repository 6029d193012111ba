// Day 13 of aoc2022/day13.py: packets of nested lists of integers, the
// packet order, the indices of the pairs already in order, and the decoder
// key found by sorting every packet together with two divider packets.
module Day13 {
  import opened Wrappers
  import opened Seqs
  import Text
  import Util

  // ---------------------------------------------------------------------
  // Packets

  /** `Data = Const | Seq`: an integer, or a list of packets. */
  datatype Data = Const(val: int) | Seq(items: seq<Data>)

  /**
   * A decoded JSON value, as `json.loads` hands it over.  Numbers are
   * integers here.
   */
  datatype Json =
    | JArray(elems: seq<Json>)
    | JObject(members: seq<(string, Json)>)
    | JNumber(n: int)
    | JText(s: string)
    | JBool(b: bool)
    | JNull

  /**
   * Python's `int(js)` on a decoded value that is not a list: a number is
   * itself, a string is parsed, a boolean is 0 or 1, anything else raises.
   */
  function IntOf(js: Json): Option<int>
  {
    match js
    case JNumber(n) => Some(n)
    case JText(s) => Text.ParseInt(s)
    case JBool(b) => Some(if b then 1 else 0)
    case _ => None
  }

  /**
   * `parse_json(js)`: a list becomes a `Seq` of its parsed elements, in
   * order; anything else becomes `Const(int(js))`.  Any element that cannot
   * be parsed fails the whole packet.
   */
  function ParseJson(js: Json): Option<Data>
  {
    match js
    case JArray(elems) =>
      (match ParseJsonList(elems)
       case Some(items) => Some(Seq(items))
       case None => None)
    case _ =>
      match IntOf(js)
      case Some(n) => Some(Const(n))
      case None => None
  }

  /** `list(map(parse_json, elems))`. */
  function ParseJsonList(elems: seq<Json>): (r: Option<seq<Data>>)
    ensures r.Some? ==> |r.value| == |elems|
  {
    if |elems| == 0 then Some([])
    else
      match ParseJson(elems[0])
      case None => None
      case Some(d) =>
        (match ParseJsonList(elems[1..])
         case None => None
         case Some(ds) => Some([d] + ds))
  }

  /** The JSON text of a packet, decoded: lists as arrays, integers as numbers. */
  function ToJson(d: Data): (js: Json)
  {
    match d
    case Const(v) => JNumber(v)
    case Seq(items) => JArray(ToJsonList(items))
  }

  function ToJsonList(items: seq<Data>): (r: seq<Json>)
    ensures |r| == |items|
  {
    if |items| == 0 then [] else [ToJson(items[0])] + ToJsonList(items[1..])
  }

  /** Every packet is read back from its own JSON. */
  lemma {:induction false} ParseToJson(d: Data)
    ensures ParseJson(ToJson(d)) == Some(d)
  {
    match d
    case Const(v) =>
    case Seq(items) => ParseToJsonList(items);
  }

  lemma {:induction false} ParseToJsonList(items: seq<Data>)
    ensures ParseJsonList(ToJsonList(items)) == Some(items)
  {
    if |items| > 0 {
      ParseToJson(items[0]);
      ParseToJsonList(items[1..]);
      assert ToJsonList(items)[0] == ToJson(items[0]);
      assert ToJsonList(items)[1..] == ToJsonList(items[1..]);
      assert [items[0]] + items[1..] == items;
    }
  }

  /** A list parses exactly when each of its elements does. */
  lemma {:induction false} ParseJsonListAll(elems: seq<Json>)
    ensures ParseJsonList(elems).Some? <==> forall i :: 0 <= i < |elems| ==> ParseJson(elems[i]).Some?
    ensures ParseJsonList(elems).Some? ==>
      forall i :: 0 <= i < |elems| ==> ParseJsonList(elems).value[i] == ParseJson(elems[i]).value
  {
    if |elems| > 0 {
      ParseJsonListAll(elems[1..]);
      assert forall i :: 1 <= i < |elems| ==> elems[i] == elems[1..][i - 1];
    }
  }

  // ---------------------------------------------------------------------
  // The packet order

  /** The number of nodes of a packet, which the comparison recursion shrinks. */
  function Size(d: Data): nat
  {
    match d
    case Const(_) => 1
    case Seq(items) => 1 + ListSize(items)
  }

  function ListSize(items: seq<Data>): nat
  {
    if |items| == 0 then 0 else Size(items[0]) + ListSize(items[1..])
  }

  /**
   * `compare(lhs, rhs)`: positive when the pair is in the right order,
   * negative when it is not, 0 when undecided.  Two integers compare by
   * difference; an integer against a list is first wrapped in a one-element
   * list.
   */
  function Compare(lhs: Data, rhs: Data): int
    decreases Size(lhs) + Size(rhs), 0
  {
    match (lhs, rhs)
    case (Const(ln), Const(rn)) => rn - ln
    case (Const(_), Seq(rs)) =>
      assert [lhs][1..] == [] && ListSize([lhs]) == Size(lhs);
      CompareLists([lhs], rs)
    case (Seq(ls), Const(_)) =>
      assert [rhs][1..] == [] && ListSize([rhs]) == Size(rhs);
      CompareLists(ls, [rhs])
    case (Seq(ls), Seq(rs)) => CompareLists(ls, rs)
  }

  /**
   * The `zip_longest` loop of `compare` over two lists: the first element
   * pair that compares non-zero decides; otherwise the left list running
   * out first gives 1, the right one -1, and equal lengths 0.
   */
  function CompareLists(ls: seq<Data>, rs: seq<Data>): int
    decreases ListSize(ls) + ListSize(rs), 1
  {
    if |ls| == 0 && |rs| == 0 then 0
    else if |ls| == 0 then 1
    else if |rs| == 0 then -1
    else
      var c := Compare(ls[0], rs[0]);
      if c != 0 then c else CompareLists(ls[1..], rs[1..])
  }

  /** An integer against a list compares as the one-element list holding it, on either side. */
  lemma ConstWrapped(n: int, rs: seq<Data>)
    ensures Compare(Const(n), Seq(rs)) == Compare(Seq([Const(n)]), Seq(rs))
    ensures Compare(Seq(rs), Const(n)) == Compare(Seq(rs), Seq([Const(n)]))
  {
  }

  /** Every packet is undecided against itself. */
  lemma {:induction false} CompareSelf(d: Data)
    ensures Compare(d, d) == 0
    decreases Size(d), 0
  {
    match d
    case Const(_) =>
    case Seq(items) => CompareListsSelf(items);
  }

  lemma {:induction false} CompareListsSelf(items: seq<Data>)
    ensures CompareLists(items, items) == 0
    decreases ListSize(items), 1
  {
    if |items| > 0 {
      CompareSelf(items[0]);
      CompareListsSelf(items[1..]);
    }
  }

  /** Swapping the two packets negates the comparison. */
  lemma {:induction false} CompareFlip(a: Data, b: Data)
    ensures Compare(b, a) == -Compare(a, b)
    decreases Size(a) + Size(b), 0
  {
    match (a, b)
    case (Const(_), Const(_)) =>
    case (Const(_), Seq(rs)) =>
      assert [a][1..] == [] && ListSize([a]) == Size(a);
      CompareListsFlip([a], rs);
    case (Seq(ls), Const(_)) =>
      assert [b][1..] == [] && ListSize([b]) == Size(b);
      CompareListsFlip(ls, [b]);
    case (Seq(ls), Seq(rs)) => CompareListsFlip(ls, rs);
  }

  lemma {:induction false} CompareListsFlip(ls: seq<Data>, rs: seq<Data>)
    ensures CompareLists(rs, ls) == -CompareLists(ls, rs)
    decreases ListSize(ls) + ListSize(rs), 1
  {
    if |ls| > 0 && |rs| > 0 {
      CompareFlip(ls[0], rs[0]);
      CompareListsFlip(ls[1..], rs[1..]);
    }
  }

  /**
   * The list comparison as the first difference: when the first `k` element
   * pairs are undecided and pair `k` is not, pair `k` decides; when every
   * shared position is undecided, the lengths decide.
   */
  lemma {:induction false} CompareListsFirstDifference(ls: seq<Data>, rs: seq<Data>, k: nat)
    requires k < |ls| && k < |rs| && Compare(ls[k], rs[k]) != 0
    requires forall i :: 0 <= i < k ==> Compare(ls[i], rs[i]) == 0
    ensures CompareLists(ls, rs) == Compare(ls[k], rs[k])
  {
    if k > 0 {
      assert forall i :: 0 <= i < k - 1 ==> ls[1..][i] == ls[i + 1] && rs[1..][i] == rs[i + 1];
      CompareListsFirstDifference(ls[1..], rs[1..], k - 1);
    }
  }

  lemma {:induction false} CompareListsByLength(ls: seq<Data>, rs: seq<Data>)
    requires forall i :: 0 <= i < |ls| && i < |rs| ==> Compare(ls[i], rs[i]) == 0
    ensures CompareLists(ls, rs) == (if |ls| < |rs| then 1 else if |ls| > |rs| then -1 else 0)
  {
    if |ls| > 0 && |rs| > 0 {
      assert Compare(ls[0], rs[0]) == 0;
      assert forall i :: 0 <= i < |ls| - 1 && i < |rs| - 1 ==> ls[1..][i] == ls[i + 1] && rs[1..][i] == rs[i + 1];
      CompareListsByLength(ls[1..], rs[1..]);
    }
  }

  // ---------------------------------------------------------------------
  // Part 1: the pairs already in the right order

  /**
   * The two packets of one pair: the group's first two lines, decoded by
   * `decode` (standing for `json.loads`) and parsed.  A group of fewer than
   * two lines fails, as does a packet that does not decode or parse.
   */
  function PairOf(group: seq<string>, decode: string -> Option<Json>): Option<(Data, Data)>
  {
    if |group| < 2 then None
    else
      match (decode(group[0]), decode(group[1]))
      case (Some(l), Some(r)) =>
        (match (ParseJson(l), ParseJson(r))
         case (Some(lhs), Some(rhs)) => Some((lhs, rhs))
         case _ => None)
      case _ => None
  }

  /** Each entry is larger than the ones before it. */
  predicate Increasing(s: seq<int>) {
    forall i, j :: 0 <= i < j < |s| ==> s[i] < s[j]
  }

  /** `indices` after the loop of `solve_p1` has seen `pairs`: 1-based numbers of the ordered pairs. */
  function OrderedIndices(pairs: seq<seq<string>>, decode: string -> Option<Json>): Option<seq<int>>
  {
    if |pairs| == 0 then Some([])
    else
      match OrderedIndices(pairs[..|pairs| - 1], decode)
      case None => None
      case Some(indices) =>
        (match PairOf(pairs[|pairs| - 1], decode)
         case None => None
         case Some(p) => Some(if Compare(p.0, p.1) > 0 then indices + [|pairs|] else indices))
  }

  /**
   * The part-1 indices fail exactly when some pair fails to load; otherwise
   * they are, in increasing order, exactly the 1-based numbers of the pairs
   * that compare positive.
   */
  lemma {:induction false} OrderedIndicesMeaning(pairs: seq<seq<string>>, decode: string -> Option<Json>)
    ensures OrderedIndices(pairs, decode).None? <==> exists i :: 0 <= i < |pairs| && PairOf(pairs[i], decode).None?
    ensures OrderedIndices(pairs, decode).Some? ==> Increasing(OrderedIndices(pairs, decode).value)
    ensures OrderedIndices(pairs, decode).Some? ==> forall k :: k in OrderedIndices(pairs, decode).value <==>
      (1 <= k <= |pairs| && Compare(PairOf(pairs[k - 1], decode).value.0, PairOf(pairs[k - 1], decode).value.1) > 0)
  {
    if |pairs| > 0 {
      var front := pairs[..|pairs| - 1];
      OrderedIndicesMeaning(front, decode);
      assert forall i :: 0 <= i < |front| ==> front[i] == pairs[i];
      if OrderedIndices(front, decode).None? {
        var i :| 0 <= i < |front| && PairOf(front[i], decode).None?;
        assert PairOf(pairs[i], decode).None?;
      } else if OrderedIndices(pairs, decode).Some? {
        var r0 := OrderedIndices(front, decode).value;
        var p := PairOf(pairs[|pairs| - 1], decode).value;
        var r := OrderedIndices(pairs, decode).value;
        assert r == if Compare(p.0, p.1) > 0 then r0 + [|pairs|] else r0;
        forall k
          ensures k in r <==> (1 <= k <= |pairs| &&
            Compare(PairOf(pairs[k - 1], decode).value.0, PairOf(pairs[k - 1], decode).value.1) > 0)
        {
          if 1 <= k <= |front| {
            assert pairs[k - 1] == front[k - 1];
          }
        }
        forall i, j | 0 <= i < j < |r|
          ensures r[i] < r[j]
        {
          if j == |r0| {
            assert r0[i] in r0;
          }
        }
      }
    }
  }

  /** The part-1 answer: the sum of the indices of the pairs in the right order. */
  function Part1(lines: seq<string>, decode: string -> Option<Json>): Option<int>
  {
    match OrderedIndices(Util.Groups(lines), decode)
    case Some(indices) => Some(Sum(indices))
    case None => None
  }

  /** `solve_p1(lines)`: the loop over the blank-separated pairs. */
  method SolveP1(lines: seq<string>, decode: string -> Option<Json>) returns (answer: Option<int>)
    ensures answer == Part1(lines, decode)
  {
    var pairs := Util.SplitByNewline(lines);
    var indices: seq<int> := [];
    var i := 0;
    while i < |pairs|
      invariant 0 <= i <= |pairs|
      invariant OrderedIndices(pairs[..i], decode) == Some(indices)
    {
      assert pairs[..i + 1][..i] == pairs[..i];
      var pair := PairOf(pairs[i], decode);
      if pair.None? {
        OrderedIndicesMeaning(pairs, decode);
        assert PairOf(pairs[i], decode).None?;
        return None;
      }
      var (lhs, rhs) := pair.value;
      if Compare(lhs, rhs) > 0 {
        indices := indices + [i + 1];
      }
      i := i + 1;
    }
    assert pairs[..i] == pairs;
    return Some(Sum(indices));
  }

  // ---------------------------------------------------------------------
  // Part 2: sorting every packet with the two dividers

  /**
   * `packets.sort(key=cmp_to_key(compare), reverse=True)`, as a stable
   * insertion: a packet moves left past every packet that compares below
   * it, and stops behind the first that does not.
   */
  function Insert(s: seq<Data>, x: Data): (r: seq<Data>)
  {
    if |s| == 0 then [x]
    else if Compare(s[|s| - 1], x) < 0 then Insert(s[..|s| - 1], x) + [s[|s| - 1]]
    else s + [x]
  }

  function SortDescending(ps: seq<Data>): seq<Data>
  {
    if |ps| == 0 then [] else Insert(SortDescending(ps[..|ps| - 1]), ps[|ps| - 1])
  }

  /** Each packet compares at or above the one after it. */
  predicate Descending(s: seq<Data>) {
    forall i :: 0 < i < |s| ==> Compare(s[i - 1], s[i]) >= 0
  }

  /** A packet at or below the last one extends a descending list. */
  lemma DescendingSnoc(s: seq<Data>, x: Data)
    requires Descending(s) && (|s| == 0 || Compare(s[|s| - 1], x) >= 0)
    ensures Descending(s + [x])
  {
    var r := s + [x];
    forall i | 0 < i < |r|
      ensures Compare(r[i - 1], r[i]) >= 0
    {
      if i < |s| {
        assert r[i - 1] == s[i - 1] && r[i] == s[i];
      }
    }
  }

  /** Inserting adds exactly `x` to the packets. */
  lemma {:induction false} InsertContents(s: seq<Data>, x: Data)
    ensures multiset(Insert(s, x)) == multiset(s) + multiset{x}
  {
    if |s| > 0 && Compare(s[|s| - 1], x) < 0 {
      InsertContents(s[..|s| - 1], x);
      assert s == s[..|s| - 1] + [s[|s| - 1]];
    }
  }

  /** After inserting, the last packet is `x` or the old last packet. */
  lemma {:induction false} InsertLast(s: seq<Data>, x: Data)
    ensures |Insert(s, x)| == |s| + 1
    ensures Insert(s, x)[|s|] == x || (|s| > 0 && Insert(s, x)[|s|] == s[|s| - 1])
  {
    if |s| > 0 && Compare(s[|s| - 1], x) < 0 {
      InsertLast(s[..|s| - 1], x);
    }
  }

  /** Inserting into a descending list keeps it descending. */
  lemma {:induction false} InsertDescending(s: seq<Data>, x: Data)
    requires Descending(s)
    ensures Descending(Insert(s, x))
  {
    if |s| == 0 || Compare(s[|s| - 1], x) >= 0 {
      DescendingSnoc(s, x);
    } else {
      var front, last := s[..|s| - 1], s[|s| - 1];
      assert Descending(front) by {
        forall i | 0 < i < |front|
          ensures Compare(front[i - 1], front[i]) >= 0
        {
          assert front[i - 1] == s[i - 1] && front[i] == s[i];
        }
      }
      InsertDescending(front, x);
      InsertLast(front, x);
      var r0 := Insert(front, x);
      assert Compare(r0[|r0| - 1], last) >= 0 by {
        if r0[|r0| - 1] == x {
          CompareFlip(last, x);
        } else {
          assert r0[|r0| - 1] == s[|s| - 2];
        }
      }
      DescendingSnoc(r0, last);
    }
  }

  /** The sort leaves each packet at or above its successor, and keeps every packet. */
  lemma {:induction false} SortDescendingMeaning(ps: seq<Data>)
    ensures Descending(SortDescending(ps))
    ensures multiset(SortDescending(ps)) == multiset(ps)
  {
    if |ps| > 0 {
      var front := ps[..|ps| - 1];
      SortDescendingMeaning(front);
      InsertDescending(SortDescending(front), ps[|ps| - 1]);
      InsertContents(SortDescending(front), ps[|ps| - 1]);
      assert ps == front + [ps[|ps| - 1]];
    }
  }

  /** `[[2]]` and `[[6]]`, the divider packets. */
  const Dividers: seq<Data> := [Seq([Seq([Const(2)])]), Seq([Seq([Const(6)])])]

  /** The 1-based positions of the packets of `packets` that are among `dividers`, in order. */
  function DividerIndices(packets: seq<Data>, dividers: seq<Data>): seq<int>
  {
    if |packets| == 0 then []
    else
      DividerIndices(packets[..|packets| - 1], dividers) +
      (if packets[|packets| - 1] in dividers then [|packets|] else [])
  }

  /** The divider indices are, increasing, exactly the positions holding a divider. */
  lemma {:induction false} DividerIndicesMeaning(packets: seq<Data>, dividers: seq<Data>)
    ensures forall k :: k in DividerIndices(packets, dividers) <==> (1 <= k <= |packets| && packets[k - 1] in dividers)
    ensures Increasing(DividerIndices(packets, dividers))
  {
    if |packets| > 0 {
      var front := packets[..|packets| - 1];
      DividerIndicesMeaning(front, dividers);
      var r0 := DividerIndices(front, dividers);
      var r := DividerIndices(packets, dividers);
      var last := packets[|packets| - 1];
      assert r == r0 + (if last in dividers then [|packets|] else []);
      assert forall k :: k in r <==> (k in r0 || (k == |packets| && last in dividers));
      forall k
        ensures k in r <==> (1 <= k <= |packets| && packets[k - 1] in dividers)
      {
        assert k in r0 <==> (1 <= k <= |front| && front[k - 1] in dividers);
        if 1 <= k <= |front| {
          assert packets[k - 1] == front[k - 1];
        } else if k == |packets| {
          assert packets[k - 1] == last;
        }
      }
      forall i, j | 0 <= i < j < |r|
        ensures r[i] < r[j]
      {
        if j == |r0| {
          assert r[i] == r0[i] && r0[i] in r0 && r[j] == |packets|;
          assert r0[i] <= |front|;
        } else {
          assert r[i] == r0[i] && r[j] == r0[j];
        }
      }
    }
  }

  /** The indices loop of `solve_p2`: appends `i + 1` for each packet that is a divider. */
  method FindDividers(packets: seq<Data>, dividers: seq<Data>) returns (indices: seq<int>)
    ensures indices == DividerIndices(packets, dividers)
  {
    indices := [];
    var i := 0;
    while i < |packets|
      invariant 0 <= i <= |packets|
      invariant indices == DividerIndices(packets[..i], dividers)
    {
      assert packets[..i + 1][..i] == packets[..i];
      if packets[i] in dividers {
        indices := indices + [i + 1];
      }
      i := i + 1;
    }
    assert packets[..i] == packets;
  }

  /** `reduce(mul, s)`: the product; an empty list has no first value and fails. */
  function ProductOf(s: seq<int>): Option<int>
  {
    if |s| == 0 then None
    else if |s| == 1 then Some(s[0])
    else
      match ProductOf(s[..|s| - 1])
      case Some(p) => Some(p * s[|s| - 1])
      case None => None
  }

  /** The packets of the non-empty lines, decoded and parsed; one that fails fails them all. */
  function Packets(lines: seq<string>, decode: string -> Option<Json>): Option<seq<Data>>
  {
    if |lines| == 0 then Some([])
    else
      match Packets(lines[..|lines| - 1], decode)
      case None => None
      case Some(ps) =>
        var line := lines[|lines| - 1];
        if line == "" then Some(ps)
        else
          match decode(line)
          case None => None
          case Some(js) =>
            (match ParseJson(js)
             case None => None
             case Some(d) => Some(ps + [d]))
  }

  /**
   * The part-2 answer: the product of the positions of the dividers once
   * every packet and both dividers are sorted.
   */
  function Part2(lines: seq<string>, decode: string -> Option<Json>): Option<int>
  {
    match Packets(lines, decode)
    case None => None
    case Some(ps) => ProductOf(DividerIndices(SortDescending(ps + Dividers), Dividers))
  }

  /**
   * Once the packets load, the decoder key exists: both dividers survive the
   * sort at two different positions, so at least two indices are multiplied.
   */
  lemma DecoderKeyExists(lines: seq<string>, decode: string -> Option<Json>)
    requires Packets(lines, decode).Some?
    ensures Part2(lines, decode).Some?
    ensures |DividerIndices(SortDescending(Packets(lines, decode).value + Dividers), Dividers)| >= 2
  {
    var ps := Packets(lines, decode).value;
    DividersFound(ps);
    ProductOfDefined(DividerIndices(SortDescending(ps + Dividers), Dividers));
  }

  /** Whatever the packets, both dividers are found after the sort. */
  lemma DividersFound(ps: seq<Data>)
    ensures |DividerIndices(SortDescending(ps + Dividers), Dividers)| >= 2
  {
    var all := ps + Dividers;
    var sorted := SortDescending(all);
    assert exists i :: 0 <= i < |sorted| && sorted[i] == Dividers[0] by {
      assert all[|all| - 2] == Dividers[0];
      SortKeeps(all, |all| - 2);
    }
    assert exists j :: 0 <= j < |sorted| && sorted[j] == Dividers[1] by {
      assert all[|all| - 1] == Dividers[1];
      SortKeeps(all, |all| - 1);
    }
    var i :| 0 <= i < |sorted| && sorted[i] == Dividers[0];
    var j :| 0 <= j < |sorted| && sorted[j] == Dividers[1];
    var r := DividerIndices(sorted, Dividers);
    assert i + 1 in r && j + 1 in r by {
      DividerIndicesMeaning(sorted, Dividers);
      assert Dividers[0] in Dividers && Dividers[1] in Dividers;
    }
    assert i != j by {
      assert Dividers[0] != Dividers[1];
    }
    TwoMembers(r, i + 1, j + 1);
  }

  /** Sorting keeps each packet of the input. */
  lemma SortKeeps(ps: seq<Data>, k: nat)
    requires k < |ps|
    ensures exists i :: 0 <= i < |SortDescending(ps)| && SortDescending(ps)[i] == ps[k]
  {
    SortDescendingMeaning(ps);
    assert ps[k] in multiset(ps);
    assert ps[k] in SortDescending(ps);
  }

  /** A list holding two different values has at least two entries. */
  lemma TwoMembers(r: seq<int>, a: int, b: int)
    requires a in r && b in r && a != b
    ensures |r| >= 2
  {
  }

  lemma {:induction false} ProductOfDefined(s: seq<int>)
    ensures ProductOf(s).Some? <==> |s| > 0
  {
    if |s| > 1 {
      ProductOfDefined(s[..|s| - 1]);
    }
  }

  /** `solve_p2(lines)`: load, add the dividers, sort, and multiply the divider positions. */
  method SolveP2(lines: seq<string>, decode: string -> Option<Json>) returns (answer: Option<int>)
    ensures answer == Part2(lines, decode)
  {
    var packets := Packets(lines, decode);
    if packets.None? {
      return None;
    }
    var sorted := SortDescending(packets.value + Dividers);
    var indices := FindDividers(sorted, Dividers);
    answer := ProductOf(indices);
  }
}
