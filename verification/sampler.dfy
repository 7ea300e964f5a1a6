/** Latency samples in a ring buffer, and nearest-rank percentiles of them. */
module Sampler {
  import opened Sorting

  const NANOS_PER_MILLI: int := 1_000_000

  /** The samples the sampler is meant to hold: the last limit ones, or all without a limit. */
  function Window(all: seq<int>, limit: int): seq<int>
  {
    if limit <= 0 || |all| <= limit then all else all[|all| - limit..]
  }

  // ---------- nearest rank ----------

  function AtMost(x: int): int -> nat
  {
    (v: int) => if v <= x then 1 else 0
  }

  function CountAtMost(s: seq<int>, x: int): nat
  {
    Sum(s, AtMost(x))
  }

  /** v is the smallest sample with at least p percent of all samples at or below it. */
  ghost predicate NearestRank(s: seq<int>, p: int, v: int)
  {
    && v in s
    && 100 * CountAtMost(s, v) >= p * |s|
    && forall w :: w in s && w < v ==> 100 * CountAtMost(s, w) < p * |s|
  }

  predicate Ascending(s: seq<int>)
  {
    forall i, j :: 0 <= i < j < |s| ==> s[i] <= s[j]
  }

  lemma {:induction false} CountInSorted(s: seq<int>, k: nat, x: int)
    requires Ascending(s) && k < |s|
    ensures s[k] <= x ==> CountAtMost(s, x) >= k + 1
    ensures x < s[k] ==> CountAtMost(s, x) <= k
    decreases |s|
  {
    if k > 0 {
      CountInSorted(s[1..], k - 1, x);
    } else if x < s[0] {
      NoneAtMost(s, x);
    }
  }

  lemma {:induction false} NoneAtMost(s: seq<int>, x: int)
    requires forall i :: 0 <= i < |s| ==> x < s[i]
    ensures CountAtMost(s, x) == 0
    decreases |s|
  {
    if s != [] { NoneAtMost(s[1..], x); }
  }

  lemma NearestRankPermuted(a: seq<int>, b: seq<int>, p: int, v: int)
    requires multiset(a) == multiset(b) && NearestRank(a, p, v)
    ensures NearestRank(b, p, v)
  {
    assert |a| == |multiset(a)| == |multiset(b)| == |b|;
    assert v in multiset(b);
    SumPermuted(a, b, AtMost(v));
    forall w | w in b && w < v ensures 100 * CountAtMost(b, w) < p * |b| {
      assert w in multiset(a);
      assert w in a;
      SumPermuted(a, b, AtMost(w));
    }
  }

  lemma ScaleUp(p: int, q: int, n: nat)
    requires p <= q
    ensures p * n <= q * n
  { }

  /** Higher percentiles are not smaller. */
  lemma NearestRankGrows(s: seq<int>, p: int, q: int, v: int, w: int)
    requires p <= q && NearestRank(s, p, v) && NearestRank(s, q, w)
    ensures v <= w
  {
    ScaleUp(p, q, |s|);
  }

  /** How many of n samples make at least p percent, rounded up. */
  method Rank(n: nat, p: int) returns (index: nat)
    requires n > 0 && 0 < p < 100
    ensures 1 <= index <= n
    ensures 100 * index >= p * n && 100 * (index - 1) < p * n
  {
    index := (n * p + 99) / 100;
    if index <= 0 {
      index := 1;
    }
    if index > n {
      index := n;
    }
  }

  method Percentile(values: seq<int>, p: int) returns (v: int)
    requires Ascending(values)
    ensures values == [] ==> v == 0
    ensures values != [] && 0 < p < 100 ==> NearestRank(values, p, v)
    ensures values != [] && p <= 0 ==> v in values && forall x :: x in values ==> v <= x
    ensures values != [] && p >= 100 ==> v in values && forall x :: x in values ==> x <= v
  {
    if |values| == 0 {
      return 0;
    }
    if p <= 0 {
      return values[0];
    }
    if p >= 100 {
      return values[|values| - 1];
    }
    var index := Rank(|values|, p);
    v := values[index - 1];
    CountInSorted(values, index - 1, v);
    forall w | w in values && w < v ensures 100 * CountAtMost(values, w) < p * |values| {
      CountInSorted(values, index - 1, w);
    }
  }

  /** Overwriting the oldest sample of a full ring shifts the window by one. */
  lemma RingShift(values: seq<int>, next: nat, ms: int)
    requires next < |values|
    ensures var values' := values[next := ms];
      var next' := if next + 1 == |values| then 0 else next + 1;
      values'[next'..] + values'[..next'] == (values[next..] + values[..next])[1..] + [ms]
  {
    var values' := values[next := ms];
    var ring := values[next..] + values[..next];
    assert ring[1..] == values[next + 1..] + values[..next];
    if next + 1 == |values| {
      assert values'[0..] + values'[..0] == values';
      assert values' == values[..next] + [ms];
    } else {
      assert values'[next + 1..] == values[next + 1..];
      assert values'[..next + 1] == values[..next] + [ms];
    }
  }

  method NextSlot(next: nat, limit: nat) returns (r: nat)
    requires next < limit
    ensures r == if next + 1 == limit then 0 else next + 1
  {
    r := (next + 1) % limit;
  }

  lemma WindowShift(all: seq<int>, limit: nat, ms: int)
    requires 0 < limit <= |all|
    ensures (all + [ms])[|all| + 1 - limit..] == all[|all| - limit..][1..] + [ms]
  { }

  datatype DurationStats = DurationStats(count: int, p50: int, p95: int, p99: int)

  /** A full ring, read from the oldest place, is the window; so it is after one more sample. */
  lemma RingHoldsWindow(all: seq<int>, values: seq<int>, next: nat, ms: int)
    requires next < |values| <= |all|
    requires values[next..] + values[..next] == all[|all| - |values|..]
    ensures var values' := values[next := ms];
      var next' := if next + 1 == |values| then 0 else next + 1;
      values'[next'..] + values'[..next'] == (all + [ms])[|all| + 1 - |values|..]
  {
    RingShift(values, next, ms);
    WindowShift(all, |values|, ms);
  }

  class DurationSampler {
    var values: seq<int>
    const limit: int
    var next: nat
    var count: int
    ghost var all: seq<int>

    /** Once the buffer is full, next is the place of the oldest sample. */
    ghost predicate Valid()
      reads this
    {
      && count == |all|
      && (if limit <= 0 || |all| < limit then values == all && next == 0
          else |values| == limit && next < limit && values[next..] + values[..next] == all[|all| - limit..])
    }

    constructor (limit: int)
      ensures Valid() && all == [] && this.limit == limit
    {
      this.limit := limit;
      values, next, count, all := [], 0, 0, [];
    }

    /** The buffer holds exactly the window, in some order. */
    lemma HoldsWindow()
      requires Valid()
      ensures multiset(values) == multiset(Window(all, limit))
    {
      if limit > 0 && |all| >= limit {
        assert values == values[..next] + values[next..];
        assert multiset(values[next..] + values[..next]) == multiset(values);
        if |all| == limit { assert all[0..] == all; }
      }
    }

    method Add(duration: int)
      requires Valid()
      modifies this
      ensures Valid()
      ensures all == old(all) + [if duration < 0 then 0 else duration / NANOS_PER_MILLI]
    {
      var d := duration;
      if d < 0 {
        d := 0;
      }
      var ms := d / NANOS_PER_MILLI;
      count := count + 1;
      all := all + [ms];
      if limit <= 0 {
        values := values + [ms];
        return;
      }
      if |values| < limit {
        values := values + [ms];
        if |all| == limit { assert all[0..] == all; }
        return;
      }
      RingHoldsWindow(old(all), values, next, ms);
      values := values[next := ms];
      next := NextSlot(next, limit);
    }

    method Snapshot() returns (r: DurationStats)
      requires Valid()
      ensures r.count == |all|
      ensures all != [] ==>
        && NearestRank(Window(all, limit), 50, r.p50)
        && NearestRank(Window(all, limit), 95, r.p95)
        && NearestRank(Window(all, limit), 99, r.p99)
        && r.p50 <= r.p95 <= r.p99
    {
      if |values| == 0 {
        return DurationStats(count, 0, 0, 0);
      }
      var sorted := Sort(values, (a: int, b: int) => a <= b);
      var p50 := Percentile(sorted, 50);
      var p95 := Percentile(sorted, 95);
      var p99 := Percentile(sorted, 99);
      HoldsWindow();
      assert |sorted| == |multiset(sorted)| == |multiset(values)| == |values|;
      var w := Window(all, limit);
      NearestRankPermuted(sorted, w, 50, p50);
      NearestRankPermuted(sorted, w, 95, p95);
      NearestRankPermuted(sorted, w, 99, p99);
      NearestRankGrows(w, 50, 95, p50, p95);
      NearestRankGrows(w, 95, 99, p95, p99);
      return DurationStats(count, p50, p95, p99);
    }
  }
}
