// Day 6 of aoc2022/day6.py: the first position in a signal preceded by a
// window of pairwise distinct characters.
module Day6 {
  import opened Wrappers
  import opened Seqs

  /** `chunk_range(i, size)`: the window `[max(0, i - size), i)` ending before position `i`. */
  function ChunkRange(i: int, size: int): (r: (int, int))
    ensures r.1 == i && r.0 >= 0
    ensures size < 0 ==> r.0 > r.1
    ensures i >= 0 && size >= 0 ==> r.0 <= r.1 && r.1 - r.0 == Min(i, size)
  {
    (Max(0, i - size), i)
  }

  /** `len(set(line[l:r])) == chunk_size` for the window ending before `i`. */
  predicate IsMarker(line: string, i: nat, size: int)
    requires i <= |line|
  {
    var (l, r) := ChunkRange(i, size);
    |ToSet(Slice(line, l, r))| == size
  }

  /**
   * The loop of `get_message_start` over the positions `0 <= i < limit`:
   * the first one whose window qualifies, or -1.
   */
  method FindMarker(chunkSize: int, line: string, limit: nat) returns (result: int)
    requires limit <= |line| + 1
    ensures -1 <= result < limit
    ensures result == -1 <==> forall j :: 0 <= j < limit ==> !IsMarker(line, j, chunkSize)
    ensures result >= 0 ==> IsMarker(line, result, chunkSize)
    ensures result >= 0 ==> forall j :: 0 <= j < result ==> !IsMarker(line, j, chunkSize)
  {
    result := -1;
    var i := 0;
    while i < limit
      invariant 0 <= i <= limit
      invariant forall j :: 0 <= j < i ==> !IsMarker(line, j, chunkSize)
      invariant result == -1
    {
      var (l, r) := ChunkRange(i, chunkSize);
      var chunk := Slice(line, l, r);
      if |ToSet(chunk)| == chunkSize {
        assert IsMarker(line, i, chunkSize);
        result := i;
        break;
      }
      i := i + 1;
    }
  }

  /**
   * `get_message_start(chunk_size, line)`: positions `0 <= i < len(line)`
   * only.  An empty line fails: the statement after the loop reads the
   * loop's `l` and `r`, which no iteration has bound.
   */
  method GetMessageStart(chunkSize: int, line: string) returns (result: Option<int>)
    ensures result.None? <==> |line| == 0
    ensures result.Some? ==> -1 <= result.value < |line|
    ensures result.Some? ==> (result.value == -1 <==> forall j :: 0 <= j < |line| ==> !IsMarker(line, j, chunkSize))
    ensures result.Some? && result.value >= 0 ==> IsMarker(line, result.value, chunkSize)
    ensures result.Some? && result.value >= 0 ==> forall j :: 0 <= j < result.value ==> !IsMarker(line, j, chunkSize)
  {
    var found := FindMarker(chunkSize, line, |line|);
    if |line| == 0 {
      return None;
    }
    return Some(found);
  }

  /** The search as intended: every position up to and including `len(line)`. */
  method GetMessageStartInclusive(chunkSize: int, line: string) returns (result: int)
    ensures -1 <= result <= |line|
    ensures result == -1 <==> forall j :: 0 <= j <= |line| ==> !IsMarker(line, j, chunkSize)
    ensures result >= 0 ==> IsMarker(line, result, chunkSize)
    ensures result >= 0 ==> forall j :: 0 <= j < result ==> !IsMarker(line, j, chunkSize)
  {
    result := FindMarker(chunkSize, line, |line| + 1);
  }

  // ---------------------------------------------------------------------
  // Properties

  /** A qualifying window is a full one, so a marker position is at least the window size. */
  lemma MarkerAfterFullWindow(line: string, i: nat, size: int)
    requires i <= |line| && IsMarker(line, i, size) && size >= 0
    ensures i >= size
    ensures |line[i - size..i]| == size
  {
    var (l, r) := ChunkRange(i, size);
    ToSetSize(Slice(line, l, r));
  }

  /** A marker is a window of `size` pairwise distinct characters. */
  lemma MarkerDistinct(line: string, i: nat, size: int)
    requires i <= |line| && IsMarker(line, i, size) && size >= 0
    ensures forall a, b :: 0 <= a && i - size <= a < b < i ==> line[a] != line[b]
  {
    MarkerAfterFullWindow(line, i, size);
    var w := line[i - size..i];
    forall a, b | 0 <= a && i - size <= a < b < i
      ensures line[a] != line[b]
    {
      if line[a] == line[b] {
        DuplicateShrinks(w, a - (i - size), b - (i - size));
        assert false;
      }
    }
  }

  /** Converse of MarkerDistinct: a full window of pairwise distinct characters is a marker. */
  lemma DistinctIsMarker(line: string, i: nat, size: int)
    requires i <= |line| && 0 <= size <= i
    requires forall a, b :: i - size <= a < b < i ==> line[a] != line[b]
    ensures IsMarker(line, i, size)
  {
    var w := Slice(line, i - size, i);
    assert w == line[i - size..i];
    DistinctToSetSize(w);
  }

  /** The source's search misses a marker that ends the line: "abcd" has one, at 4, yet gives -1. */
  lemma FinalWindowMissed()
    ensures IsMarker("abcd", 4, 4)
    ensures forall j :: 0 <= j < 4 ==> !IsMarker("abcd", j, 4)
  {
    var w := "abcd"[0..4];
    assert w == ['a', 'b', 'c', 'd'];
    assert ToSet(w) == {'a', 'b', 'c', 'd'};
    forall j | 0 <= j < 4 ensures !IsMarker("abcd", j, 4) {
      ToSetSize(Slice("abcd", 0, j));
    }
  }
}
