/** Cutting a sequence into consecutive chunks that each serialize to a bounded size. */
module Chunking {
  import opened Common

  /** A slice never serializes to more than the sequence it is taken from. */
  ghost predicate Monotone<T(!new)>(size: seq<T> -> nat) {
    forall s: seq<T>, i, j :: 0 <= i <= j <= |s| ==> size(s[i..j]) <= size(s)
  }

  lemma PrefixSize<T(!new)>(size: seq<T> -> nat, s: seq<T>, m: nat, n: nat)
    requires Monotone(size) && m <= n <= |s|
    ensures size(s[..m]) <= size(s[..n])
  {
    assert s[..n][0..m] == s[..m];
  }

  lemma ItemSize<T(!new)>(size: seq<T> -> nat, s: seq<T>, i: nat)
    requires Monotone(size) && i < |s|
    ensures size([s[i]]) <= size(s)
  {
    assert s[i..i + 1] == [s[i]];
  }

  /** `n` is the length of the longest prefix of `s` that fits, and 0 if not even one item fits. */
  ghost predicate LongestFit<T>(s: seq<T>, max: nat, size: seq<T> -> nat, n: nat) {
    && n <= |s|
    && (n > 0 ==> size(s[..n]) <= max)
    && (forall m :: n < m <= |s| ==> size(s[..m]) > max)
  }

  /** Finds by bisection how many items from the front fit. */
  method NumWillFit<T(!new)>(s: seq<T>, max: nat, size: seq<T> -> nat) returns (num: nat)
    requires Monotone(size)
    ensures LongestFit(s, max, size, num)
  {
    if s == [] {
      return 0;
    }
    num := |s|;
    var upper, lower := |s|, 1;
    while true
      invariant 1 <= lower <= num <= upper <= |s|
      invariant lower > 1 ==> size(s[..lower]) <= max
      invariant num < upper || num == |s|
      invariant num < upper ==> size(s[..upper]) > max
      decreases num == upper, upper - lower, num == lower
    {
      var next;
      if size(s[..num]) <= max {
        next := (upper + num) / 2;
        lower := num;
      } else {
        if num == 1 {
          num := 0;
          break;
        }
        next := (lower + num) / 2;
        upper := num;
      }
      if next == num {
        break;
      }
      num := next;
    }
    forall m | num < m <= |s| ensures size(s[..m]) > max {
      PrefixSize(size, s, if num == 0 then 1 else Min(m, num + 1), m);
    }
  }

  /** A cut of `s` into consecutive pieces, each of which fits. */
  ghost predicate IsSplit<T>(chunks: seq<seq<T>>, s: seq<T>, max: nat, size: seq<T> -> nat) {
    Flatten(chunks) == s && forall i :: 0 <= i < |chunks| ==> size(chunks[i]) <= max
  }

  ghost predicate EachFits<T>(s: seq<T>, max: nat, size: seq<T> -> nat) {
    forall i :: 0 <= i < |s| ==> size([s[i]]) <= max
  }

  lemma {:induction false} FlattenPrefix<T>(chunks: seq<seq<T>>, k: nat)
    requires k < |chunks|
    ensures Flatten(chunks[..k + 1]) == Flatten(chunks[..k]) + chunks[k]
    ensures Flatten(chunks[..k + 1]) + Flatten(chunks[k + 1..]) == Flatten(chunks)
  {
    assert chunks[..k + 1][..k] == chunks[..k];
    FlattenConcat(chunks[..k + 1], chunks[k + 1..]);
    assert chunks[..k + 1] + chunks[k + 1..] == chunks;
  }

  /** No split gets further with its first `k` chunks than to position `start`. */
  ghost predicate Ahead<T>(other: seq<seq<T>>, k: nat, start: nat) {
    k <= |other| ==> |Flatten(other[..k])| <= start
  }

  /** Taking as much as fits keeps the greedy cut ahead of every other one. */
  lemma StayAhead<T(!new)>(
    other: seq<seq<T>>, s: seq<T>, max: nat, size: seq<T> -> nat, k: nat, start: nat, n: nat)
    requires Monotone(size) && IsSplit(other, s, max, size) && Ahead(other, k, start) && start <= |s|
    requires LongestFit(s[start..], max, size, n)
    ensures Ahead(other, k + 1, start + n)
  {
    if k < |other| {
      var a, b := |Flatten(other[..k])|, |Flatten(other[..k + 1])|;
      ChunkIsSlice(other, k, s);
      if start < b {
        SliceOfSlice(s, a, start, b);
        assert size(s[start..][..b - start]) <= size(other[k]) <= max;
      }
    }
  }

  lemma ChunkIsSlice<T>(chunks: seq<seq<T>>, k: nat, s: seq<T>)
    requires k < |chunks| && Flatten(chunks) == s
    ensures var a, b := |Flatten(chunks[..k])|, |Flatten(chunks[..k + 1])|; a <= b <= |s| && chunks[k] == s[a..b]
  {
    FlattenPrefix(chunks, k);
    MiddleSlice(Flatten(chunks[..k]), chunks[k], Flatten(chunks[k + 1..]));
  }

  lemma MiddleSlice<T>(a: seq<T>, b: seq<T>, c: seq<T>)
    ensures (a + b + c)[|a|..|a + b|] == b
  {
  }

  lemma SliceOfSlice<T>(s: seq<T>, a: nat, start: nat, b: nat)
    requires a <= start <= b <= |s|
    ensures s[start..][..b - start] == s[a..b][start - a..b - a]
  {
    var x, y := s[start..][..b - start], s[a..b][start - a..b - a];
    forall i | 0 <= i < |x| ensures x[i] == y[i] {
    }
  }

  /** `chunks` cuts the first `start` items, and no cut of the whole gets further or does with fewer. */
  ghost predicate Greedy<T(!new)>(chunks: seq<seq<T>>, s: seq<T>, max: nat, size: seq<T> -> nat, start: nat) {
    && start <= |s|
    && IsSplit(chunks, s[..start], max, size)
    && (forall i :: 0 <= i < |chunks| ==> chunks[i] != [])
    && (forall other :: IsSplit(other, s, max, size) ==> Ahead(other, |chunks|, start) && |chunks| <= |other|)
  }

  lemma WholePrefix<T>(s: seq<T>, n: nat)
    requires n == |s|
    ensures s[..n] == s
  {
  }

  lemma GreedyStep<T(!new)>(chunks: seq<seq<T>>, s: seq<T>, max: nat, size: seq<T> -> nat, start: nat, n: nat)
    requires Monotone(size) && Greedy(chunks, s, max, size, start)
    requires 0 < n <= |s| - start && LongestFit(s[start..], max, size, n)
    ensures Greedy(chunks + [s[start..start + n]], s, max, size, start + n)
  {
    var chunk := s[start..start + n];
    assert s[start..][..n] == chunk;
    assert s[..start] + chunk == s[..start + n];
    assert (chunks + [chunk])[..|chunks|] == chunks;
    forall other | IsSplit(other, s, max, size)
      ensures Ahead(other, |chunks| + 1, start + n) && |chunks| + 1 <= |other|
    {
      StayAhead(other, s, max, size, |chunks|, start, n);
      if |other| == |chunks| {
        WholePrefix(other, |chunks|);
      }
    }
  }

  /** Cuts from the front, each time as much as fits. The cut has as few chunks as any that fits. */
  method SplitSerializableChunks<T(!new)>(s: seq<T>, max: nat, size: seq<T> -> nat) returns (chunks: seq<seq<T>>)
    requires Monotone(size) && EachFits(s, max, size)
    ensures IsSplit(chunks, s, max, size)
    ensures forall i :: 0 <= i < |chunks| ==> chunks[i] != []
    ensures forall other :: IsSplit(other, s, max, size) ==> |chunks| <= |other|
  {
    chunks := [];
    var start := 0;
    while start < |s|
      invariant Greedy(chunks, s, max, size, start)
      decreases |s| - start
    {
      var n := NumWillFit(s[start..], max, size);
      assert n > 0 by {
        assert s[start..][..1] == [s[start]];
      }
      GreedyStep(chunks, s, max, size, start, n);
      chunks := chunks + [s[start..start + n]];
      start := start + n;
    }
    assert s[..start] == s;
  }

  // ---- When the cutting loop terminates ----

  /** Some round of the cutting loop begins at position `start`. */
  ghost predicate Reaches<T>(s: seq<T>, max: nat, size: seq<T> -> nat, start: nat)
    decreases start
  {
    start == 0 || exists prev: nat ::
      prev < start <= |s| && Reaches(s, max, size, prev) && LongestFit(s[prev..], max, size, start - prev)
  }

  /** The cutting loop comes to `start`, where nothing fits, and so never leaves it. */
  ghost predicate Stuck<T>(s: seq<T>, max: nat, size: seq<T> -> nat, start: nat) {
    start < |s| && Reaches(s, max, size, start) && LongestFit(s[start..], max, size, 0)
  }

  lemma {:induction false} LongestFitExists<T(!new)>(s: seq<T>, max: nat, size: seq<T> -> nat, k: nat) returns (n: nat)
    requires Monotone(size) && k <= |s| && forall m :: k < m <= |s| ==> size(s[..m]) > max
    ensures LongestFit(s, max, size, n)
  {
    if k == 0 || size(s[..k]) <= max {
      n := k;
    } else {
      n := LongestFitExists(s, max, size, k - 1);
    }
  }

  lemma {:induction false} StuckBefore<T(!new)>(s: seq<T>, max: nat, size: seq<T> -> nat, start: nat, i: nat)
    requires Monotone(size) && start <= i < |s| && size([s[i]]) > max && Reaches(s, max, size, start)
    ensures exists x: nat :: Stuck(s, max, size, x)
    decreases i - start
  {
    var n := LongestFitExists(s[start..], max, size, |s| - start);
    if n == 0 {
      assert Stuck(s, max, size, start);
    } else {
      assert start + n <= i by {
        if i < start + n {
          ItemSize(size, s[start..][..n], i - start);
        }
      }
      StuckBefore(s, max, size, start + n, i);
    }
  }

  /** The cutting loop runs forever iff some item is too large to fit by itself. */
  lemma StuckIffOversized<T(!new)>(s: seq<T>, max: nat, size: seq<T> -> nat)
    requires Monotone(size)
    ensures (exists x: nat :: Stuck(s, max, size, x)) <==> !EachFits(s, max, size)
  {
    if x: nat :| Stuck(s, max, size, x) {
      assert s[x..][..1] == [s[x]];
    }
    if !EachFits(s, max, size) {
      var i :| 0 <= i < |s| && size([s[i]]) > max;
      StuckBefore(s, max, size, 0, i);
    }
  }
}
