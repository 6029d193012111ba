// Python built-ins over lists and integers that several solvers share:
// `sum`, `min`, `max` and `reversed`.
module Seqs {
  import opened Wrappers

  /** `sum(s)`. */
  function Sum(s: seq<int>): int
  {
    if |s| == 0 then 0 else Sum(s[..|s| - 1]) + s[|s| - 1]
  }

  /** `min(a, b)`. */
  function Min(a: int, b: int): int
  {
    if a <= b then a else b
  }

  /** `max(a, b)`. */
  function Max(a: int, b: int): int
  {
    if a >= b then a else b
  }

  /** `max(s)` of a non-empty list. */
  function Largest(s: seq<int>): int
    requires |s| > 0
  {
    if |s| == 1 then s[0] else Max(Largest(s[..|s| - 1]), s[|s| - 1])
  }

  /** `max(s)` is an entry of `s` and no entry exceeds it. */
  lemma {:induction false} LargestIsMaximum(s: seq<int>)
    requires |s| > 0
    ensures Largest(s) in s
    ensures forall i :: 0 <= i < |s| ==> s[i] <= Largest(s)
  {
    if |s| > 1 {
      LargestIsMaximum(s[..|s| - 1]);
    }
  }

  /** `list(reversed(s))`, also what `s.reverse()` leaves in `s`. */
  function Reversed<T>(s: seq<T>): (r: seq<T>)
    ensures |r| == |s| && forall i :: 0 <= i < |s| ==> r[i] == s[|s| - 1 - i]
  {
    seq(|s|, i requires 0 <= i < |s| => s[|s| - 1 - i])
  }

  /** Reversing twice gives the sequence back. */
  lemma ReversedTwice<T>(s: seq<T>)
    ensures Reversed(Reversed(s)) == s
  {
  }

  /** `sum` distributes over concatenation. */
  lemma {:induction false} SumAppend(a: seq<int>, b: seq<int>)
    ensures Sum(a + b) == Sum(a) + Sum(b)
  {
    if |b| > 0 {
      SumAppend(a, b[..|b| - 1]);
      assert (a + b)[..|a + b| - 1] == a + b[..|b| - 1];
    } else {
      assert a + b == a;
    }
  }

  /** `s[lo:hi]` for non-negative bounds: clamped to the length, empty when `lo >= hi`. */
  function Slice<T>(s: seq<T>, lo: nat, hi: nat): (r: seq<T>)
    ensures lo <= hi <= |s| ==> r == s[lo..hi]
    ensures hi <= lo ==> r == []
  {
    var l := Min(lo, |s|);
    var h := Min(hi, |s|);
    if l >= h then [] else s[l..h]
  }

  /** `set(s)`: the distinct elements. */
  function ToSet<T>(s: seq<T>): set<T> { set x | x in s }

  /** A sequence has at most as many distinct elements as entries. */
  lemma {:induction false} ToSetSize<T>(s: seq<T>)
    ensures |ToSet(s)| <= |s|
  {
    if |s| > 0 {
      var init := s[..|s| - 1];
      ToSetSize(init);
      assert ToSet(s) == ToSet(init) + {s[|s| - 1]} by {
        assert s == init + [s[|s| - 1]];
      }
    }
  }

  /** A subset has at most as many elements as the set containing it. */
  lemma SubsetSize<T>(a: set<T>, b: set<T>)
    requires a <= b
    ensures |a| <= |b|
  {
    assert b == a + (b - a);
  }

  /** A sequence of pairwise distinct entries has exactly as many distinct elements as entries. */
  lemma {:induction false} DistinctToSetSize<T>(s: seq<T>)
    requires forall a, b :: 0 <= a < b < |s| ==> s[a] != s[b]
    ensures |ToSet(s)| == |s|
  {
    if |s| > 0 {
      var init := s[..|s| - 1];
      DistinctToSetSize(init);
      assert s[|s| - 1] !in ToSet(init);
      assert ToSet(s) == ToSet(init) + {s[|s| - 1]} by {
        assert s == init + [s[|s| - 1]];
      }
    }
  }

  /** A sequence with a repeated entry has fewer distinct elements than entries. */
  lemma DuplicateShrinks<T>(w: seq<T>, p: nat, q: nat)
    requires p < q < |w| && w[p] == w[q]
    ensures |ToSet(w)| < |w|
  {
    var rest := w[..p] + w[p + 1..];
    assert ToSet(w) <= ToSet(rest) by {
      forall x | x in ToSet(w) ensures x in ToSet(rest) {
        var k :| 0 <= k < |w| && w[k] == x;
        if k == p {
          assert rest[q - 1] == x;
        } else if k < p {
          assert rest[k] == x;
        } else {
          assert rest[k - 1] == x;
        }
      }
    }
    SubsetSize(ToSet(w), ToSet(rest));
    ToSetSize(rest);
  }

  /** Python's `s[i]` on a list of length n: a negative index counts from the end, anything else out of range fails. */
  function PyIndex(n: nat, i: int): (r: Option<nat>)
    ensures r.Some? <==> -(n as int) <= i < n
    ensures r.Some? ==> r.value < n && (r.value == i || r.value == i + n)
  {
    if 0 <= i < n then Some(i) else if -(n as int) <= i < 0 then Some(i + n) else None
  }

  /** `[f(x) for x in xs]` where `f` may raise: the first failure fails the whole list. */
  function MapAll<A, B>(xs: seq<A>, f: A -> Option<B>): (r: Option<seq<B>>)
    ensures r.Some? ==> |r.value| == |xs|
  {
    if |xs| == 0 then Some([])
    else
      match MapAll(xs[..|xs| - 1], f)
      case None => None
      case Some(ys) =>
        (match f(xs[|xs| - 1])
         case None => None
         case Some(y) => Some(ys + [y]))
  }

  /** The list maps exactly when every element does, each to its own image. */
  lemma {:induction false} MapAllMeaning<A, B>(xs: seq<A>, f: A -> Option<B>)
    ensures MapAll(xs, f).Some? <==> forall i :: 0 <= i < |xs| ==> f(xs[i]).Some?
    ensures MapAll(xs, f).Some? ==> forall i :: 0 <= i < |xs| ==> MapAll(xs, f).value[i] == f(xs[i]).value
  {
    if |xs| > 0 {
      var front := xs[..|xs| - 1];
      MapAllMeaning(front, f);
      assert forall i :: 0 <= i < |front| ==> front[i] == xs[i];
    }
  }
}
