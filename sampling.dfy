/**
 Stimulus sampling. `Math.random()` is replaced by an oracle: a sequence of
 draws, where a draw `d` for bound `b` stands for `floor(U * b)` with `U`
 uniform in [0, 1).
 */
module Sampling {
  import opened Wrappers

  /** `d` is a value `floor(U * bound)` can take: in [0, bound), or 0 when the bound is 0. */
  predicate IsDraw(d: int, bound: nat) {
    (0 <= d < bound) || (bound == 0 && d == 0)
  }

  function Min(a: int, b: int): int { if a <= b then a else b }

  function Max(a: int, b: int): int { if a <= b then b else a }

  /** A single value when one was asked for, a list otherwise. */
  datatype RandomInts = Single(value: int) | List(values: seq<int>)

  /**
   `n` integers in [min(a, b), max(a, b)): the k-th is the low end plus the
   k-th draw. The argument order does not matter, since only the minimum and
   maximum are used; when `a == b` every value is that endpoint.
   */
  method RandomInt(a: int, b: int, n: int, draws: seq<int>) returns (r: RandomInts)
    requires n <= |draws|
    requires forall k :: 0 <= k < n ==> IsDraw(draws[k], Max(a, b) - Min(a, b))
    ensures n == 1 <==> r.Single?
    ensures r.Single? ==> r.value == Min(a, b) + draws[0]
    ensures r.Single? && a != b ==> Min(a, b) <= r.value < Max(a, b)
    ensures r.List? ==> |r.values| == (if n < 0 then 0 else n)
    ensures r.List? ==> forall k :: 0 <= k < |r.values| ==> r.values[k] == Min(a, b) + draws[k]
    ensures r.List? && a != b ==> forall k :: 0 <= k < |r.values| ==> Min(a, b) <= r.values[k] < Max(a, b)
  {
    var randIntList: seq<int> := [];
    var minVal := Min(a, b);
    var maxVal := Max(a, b);
    var i := 0;
    while i < n
      invariant 0 <= i <= Max(n, 0) && |randIntList| == i
      invariant forall k :: 0 <= k < i ==> randIntList[k] == minVal + draws[k]
    {
      randIntList := randIntList + [minVal + draws[i]];
      i := i + 1;
    }
    r := if n == 1 then Single(randIntList[0]) else List(randIntList);
  }

  /** The draws a with-replacement sample of `n` from a pool of `len` consumes. */
  predicate SampleDraws(draws: seq<int>, n: int, len: nat) {
    n <= |draws| && forall k :: 0 <= k < n ==> IsDraw(draws[k], len)
  }

  /**
   `n` independent draws from the pool: the k-th sample is the pool element
   at the k-th drawn index. The pool is only read.
   */
  method SampleWithReplacement<T>(pool: array<T>, n: int, draws: seq<int>) returns (samples: seq<T>)
    requires n <= 0 || pool.Length > 0
    requires SampleDraws(draws, n, pool.Length)
    ensures |samples| == (if n < 0 then 0 else n)
    ensures forall k :: 0 <= k < |samples| ==> 0 <= draws[k] < pool.Length && samples[k] == pool[draws[k]]
    ensures forall k :: 0 <= k < |samples| ==> samples[k] in pool[..]
  {
    samples := [];
    var i := 0;
    while i < n
      invariant 0 <= i <= Max(n, 0) && |samples| == i
      invariant forall k :: 0 <= k < i ==> 0 <= draws[k] < pool.Length && samples[k] == pool[draws[k]]
    {
      var ind := RandomInt(0, pool.Length, 1, [draws[i]]);
      samples := samples + [pool[ind.value]];
      i := i + 1;
    }
  }

  /** The draws a Knuth shuffle of `len` elements consumes: the k-th is below `len - k`. */
  predicate ShuffleDraws(draws: seq<int>, len: nat) {
    len <= |draws| && forall k :: 0 <= k < len ==> 0 <= draws[k] < len - k
  }

  function Swap<T>(s: seq<T>, i: nat, j: nat): (t: seq<T>)
    requires i < |s| && j < |s|
    ensures |t| == |s|
  {
    s[i := s[j]][j := s[i]]
  }

  lemma SwapPermutes<T>(s: seq<T>, i: nat, j: nat)
    requires i < |s| && j < |s|
    ensures multiset(Swap(s, i, j)) == multiset(s)
  {
    var u := s[i := s[j]];
    assert multiset(u) == multiset(s) - multiset{s[i]} + multiset{s[j]};
    assert u[j] == (if i == j then s[j] else s[j]);
    assert multiset(u[j := s[i]]) == multiset(u) - multiset{u[j]} + multiset{s[i]};
  }

  /**
   The Knuth shuffle with `current` elements still to place: the element at
   `current - 1` is swapped with the drawn index below `current`.
   */
  function Knuth<T>(s: seq<T>, draws: seq<int>, current: nat): (t: seq<T>)
    requires current <= |s| && ShuffleDraws(draws, |s|)
    ensures |t| == |s|
    decreases current
  {
    if current == 0 then s
    else
      var j := draws[|s| - current];
      Knuth(Swap(s, current - 1, j), draws, current - 1)
  }

  /** Each step swaps two elements, so the shuffle is a permutation. */
  lemma {:induction false} KnuthPermutes<T>(s: seq<T>, draws: seq<int>, current: nat)
    requires current <= |s| && ShuffleDraws(draws, |s|)
    ensures multiset(Knuth(s, draws, current)) == multiset(s)
    decreases current
  {
    if current > 0 {
      var j := draws[|s| - current];
      SwapPermutes(s, current - 1, j);
      KnuthPermutes(Swap(s, current - 1, j), draws, current - 1);
    }
  }

  lemma SwapStep<T>(before: seq<T>, after: seq<T>, draws: seq<int>, c: nat, j: nat)
    requires c < |before| && ShuffleDraws(draws, |before|) && j == draws[|before| - (c + 1)]
    requires |after| == |before| && after[c] == before[j] && after[j] == before[c]
    requires forall k :: 0 <= k < |after| && k != c && k != j ==> after[k] == before[k]
    ensures Knuth(after, draws, c) == Knuth(before, draws, c + 1)
  {
    assert after == Swap(before, c, j);
  }

  /** The full shuffle of `s`. */
  function Shuffled<T>(s: seq<T>, draws: seq<int>): (t: seq<T>)
    requires ShuffleDraws(draws, |s|)
    ensures |t| == |s| && multiset(t) == multiset(s)
  {
    KnuthPermutes(s, draws, |s|);
    Knuth(s, draws, |s|)
  }

  /** The loop of both shuffles: permutes `a` in place, leaving it as the Knuth shuffle of its old contents. */
  method ShuffleInPlace<T>(a: array<T>, draws: seq<int>)
    requires ShuffleDraws(draws, a.Length)
    modifies a
    ensures a[..] == Shuffled(old(a[..]), draws)
    ensures multiset(a[..]) == multiset(old(a[..]))
  {
    ghost var target := Shuffled(a[..], draws);
    var currentIndex := a.Length;
    while currentIndex != 0
      invariant 0 <= currentIndex <= a.Length
      invariant Knuth(a[..], draws, currentIndex) == target
    {
      var randomIndex := draws[a.Length - currentIndex];
      ghost var before := a[..];
      currentIndex := currentIndex - 1;
      var temporaryValue := a[currentIndex];
      a[currentIndex] := a[randomIndex];
      a[randomIndex] := temporaryValue;
      SwapStep(before, a[..], draws, currentIndex, randomIndex);
    }
    assert Knuth(a[..], draws, 0) == a[..];
  }

  /**
   How many shuffled elements are returned: `n` when it is given and in
   [1, len]; the whole array when it is missing, not positive, or too large.
   */
  function SampleCount(n: Option<int>, len: nat): (k: nat)
    ensures k <= len
    ensures n.None? || n.value <= 0 || n.value > len ==> k == len
    ensures n.Some? && 0 < n.value <= len ==> k == n.value
  {
    match n
    case None => len
    case Some(m) => if m <= 0 then len else if m > len then len else m
  }

  /**
   The shuffle with a sample size: permutes the caller's array in place and
   returns the first `SampleCount(n, length)` elements of the result.
   */
  method Shuffle<T>(a: array<T>, n: Option<int>, draws: seq<int>) returns (samples: seq<T>)
    requires ShuffleDraws(draws, a.Length)
    modifies a
    ensures a[..] == Shuffled(old(a[..]), draws)
    ensures multiset(a[..]) == multiset(old(a[..]))
    ensures samples == a[..SampleCount(n, a.Length)]
  {
    var nInd := SampleCount(n, a.Length);
    ShuffleInPlace(a, draws);
    samples := a[..nInd];
  }

  /** The full-array shuffle: returns the same array, now a permutation of its old contents. */
  method ShuffleAll<T>(a: array<T>, draws: seq<int>) returns (r: array<T>)
    requires ShuffleDraws(draws, a.Length)
    modifies a
    ensures r == a
    ensures r[..] == Shuffled(old(a[..]), draws)
    ensures multiset(r[..]) == multiset(old(a[..]))
  {
    ShuffleInPlace(a, draws);
    r := a;
  }

  ghost predicate Distinct<T>(s: seq<T>) {
    forall i, j :: 0 <= i < j < |s| ==> s[i] != s[j]
  }

  lemma {:induction false} DistinctIffSingleCounts<T>(s: seq<T>)
    ensures Distinct(s) <==> forall x :: multiset(s)[x] <= 1
  {
    if s != [] {
      var init, last := s[..|s| - 1], s[|s| - 1];
      assert s == init + [last];
      DistinctIffSingleCounts(init);
      assert multiset(s) == multiset(init) + multiset{last};
      if Distinct(s) {
        assert Distinct(init);
        assert last !in init;
      } else {
        var i, j :| 0 <= i < j < |s| && s[i] == s[j];
        if j < |s| - 1 {
          assert init[i] == init[j];
          assert !Distinct(init);
          var x :| multiset(init)[x] > 1;
          assert multiset(s)[x] > 1;
        } else {
          assert s[i] in init;
          assert multiset(init)[last] >= 1;
          assert multiset(s)[last] >= 2;
        }
      }
    }
  }

  /**
   Sampling without replacement: a shuffled prefix of a pool without repeats
   has no repeats, and each of its elements comes from the pool.
   */
  lemma ShuffledPrefixFromPool<T>(s: seq<T>, draws: seq<int>, k: nat)
    requires ShuffleDraws(draws, |s|) && k <= |s|
    ensures forall x :: x in Shuffled(s, draws)[..k] ==> x in s
    ensures Distinct(s) ==> Distinct(Shuffled(s, draws)[..k])
  {
    var t := Shuffled(s, draws);
    assert multiset(t) == multiset(s);
    forall x | x in t[..k] ensures x in s {
      assert x in multiset(t);
    }
    if Distinct(s) {
      DistinctIffSingleCounts(s);
      DistinctIffSingleCounts(t);
      assert Distinct(t);
    }
  }

  /** Counts the positions of `arr` holding `el`. */
  method Count<T(==)>(arr: seq<T>, el: T) returns (c: nat)
    ensures c == multiset(arr)[el]
    ensures c <= |arr|
  {
    c := 0;
    for i := 0 to |arr|
      invariant c == multiset(arr[..i])[el]
    {
      assert arr[..i + 1] == arr[..i] + [arr[i]];
      if arr[i] == el {
        c := c + 1;
      }
    }
    assert arr[..|arr|] == arr;
  }

  /** The counts of `sample` at each element of `elems`, added up. */
  ghost function SumCounts<T>(sample: seq<T>, elems: seq<T>): nat {
    if elems == [] then 0 else multiset(sample)[elems[0]] + SumCounts(sample, elems[1..])
  }

  lemma {:induction false} SumCountsSplit<T>(x: T, rest: seq<T>, elems: seq<T>)
    ensures SumCounts([x] + rest, elems) == SumCounts(rest, elems) + multiset(elems)[x]
  {
    if elems != [] {
      assert elems == [elems[0]] + elems[1..];
      assert multiset([x] + rest) == multiset{x} + multiset(rest);
      SumCountsSplit(x, rest, elems[1..]);
    }
  }

  /**
   When every sampled element occurs in a pool without repeats, the counts
   over the pool's elements add up to the sample's length.
   */
  lemma {:induction false} CountsSumToLength<T>(sample: seq<T>, pool: seq<T>)
    requires Distinct(pool)
    requires forall k :: 0 <= k < |sample| ==> sample[k] in pool
    ensures SumCounts(sample, pool) == |sample|
  {
    if sample == [] {
      SumCountsEmpty(pool);
    } else {
      var x, rest := sample[0], sample[1..];
      assert sample == [x] + rest;
      SumCountsSplit(x, rest, pool);
      CountsSumToLength(rest, pool);
      DistinctIffSingleCounts(pool);
      assert x in multiset(pool);
    }
  }

  lemma {:induction false} SumCountsEmpty<T>(elems: seq<T>)
    ensures SumCounts([], elems) == 0
  {
    if elems != [] {
      SumCountsEmpty(elems[1..]);
    }
  }
}
