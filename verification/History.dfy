/** Bucket averages of the ring for sparklines (internal/api/handler_stats.go:31-73), over the reals. */
module History {
  import opened Reals
  import opened Sequences
  import opened Wrappers

  datatype Sample = Sample(t: int, v: real)
  datatype Point = Point(time: int, value: real)

  function SumV(s: seq<Sample>): real { if s == [] then 0.0 else SumV(s[..|s| - 1]) + s[|s| - 1].v }
  function SumT(s: seq<Sample>): int { if s == [] then 0 else SumT(s[..|s| - 1]) + s[|s| - 1].t }

  /** int64(x) truncates toward zero. */
  function Truncate(x: real): int { if x >= 0.0 then x.Floor else -((-x).Floor) }

  function PointOf(bucket: seq<Sample>): Point
    requires bucket != []
  {
    Point(Truncate(SumT(bucket) as real / |bucket| as real), SumV(bucket) / |bucket| as real)
  }

  /** Cut s into pieces of the given size, the last one possibly shorter. */
  function Buckets(s: seq<Sample>, size: nat): (b: seq<seq<Sample>>)
    requires size > 0
    ensures forall k :: 0 <= k < |b| ==> b[k] != []
  {
    if s == [] then [] else if |s| <= size then [s] else [s[..size]] + Buckets(s[size..], size)
  }

  function Points(b: seq<seq<Sample>>): (p: seq<Point>)
    requires forall k :: 0 <= k < |b| ==> b[k] != []
  {
    seq(|b|, k requires 0 <= k < |b| => PointOf(b[k]))
  }

  function SizeFor(n: nat, points: nat): nat
    requires points > 0
  {
    if n / points < 1 then 1 else n / points
  }

  /** The samples of the metric, in ring order. */
  function Selected<M>(all: seq<M>, timeOf: M -> int, valueOf: M -> Option<real>): seq<Sample> {
    if all == [] then []
    else
      var m := all[|all| - 1];
      Selected(all[..|all| - 1], timeOf, valueOf)
      + if valueOf(m).Some? then [Sample(timeOf(m), valueOf(m).value)] else []
  }

  /** The samples of two stretches of the ring, one after the other. */
  lemma {:induction false} SelectedSplits<M>(a: seq<M>, b: seq<M>, timeOf: M -> int, valueOf: M -> Option<real>)
    ensures Selected(a + b, timeOf, valueOf) == Selected(a, timeOf, valueOf) + Selected(b, timeOf, valueOf)
  {
    if b == [] {
      assert a + b == a;
    } else {
      assert (a + b)[..|a + b| - 1] == a + b[..|b| - 1];
      SelectedSplits(a, b[..|b| - 1], timeOf, valueOf);
    }
  }

  /** Sample m of the ring gives one point of the metric, or none if it lacks the metric. */
  lemma SelectedOne<M>(m: M, timeOf: M -> int, valueOf: M -> Option<real>)
    ensures Selected([m], timeOf, valueOf)
      == match valueOf(m) case None => [] case Some(v) => [Sample(timeOf(m), v)]
  {
    assert [m][..0] == [];
  }

  method History<M>(all: seq<M>, timeOf: M -> int, valueOf: M -> Option<real>, points: int) returns (out: seq<Point>)
    ensures var s := Selected(all, timeOf, valueOf);
      out == Points(Buckets(s, SizeFor(|s|, if points <= 0 then 60 else points)))
  {
    var wanted := if points <= 0 then 60 else points;
    var samples := Select(all, timeOf, valueOf);
    out := [];
    if |samples| > 0 {
      var bucketSize := |samples| / wanted;
      if bucketSize < 1 { bucketSize := 1; }
      out := Averages(samples, bucketSize);
    }
  }

  method Averages(samples: seq<Sample>, bucketSize: nat) returns (out: seq<Point>)
    requires bucketSize > 0
    ensures out == Points(Buckets(samples, bucketSize))
  {
    hide PointOf, Points, Buckets;
    ghost var goal := Points(Buckets(samples, bucketSize));
    out := [];
    var i := 0;
    assert samples[0..] == samples && [] + goal == goal;
    while i < |samples|
      invariant 0 <= i <= |samples|
      invariant out + Points(Buckets(samples[i..], bucketSize)) == goal
      decreases |samples| - i
    {
      var end := i + bucketSize;
      if end > |samples| { end := |samples|; }
      var point := Average(samples[i..end]);
      NextBucket(samples, i, end, bucketSize);
      ghost var later := Points(Buckets(samples[end..], bucketSize));
      assert out + ([point] + later) == (out + [point]) + later;
      out := out + [point];
      i := end;
    }
    NoBuckets(samples[i..], bucketSize);
    assert out + [] == out;
  }

  lemma NoBuckets(s: seq<Sample>, size: nat)
    requires s == [] && size > 0
    ensures Points(Buckets(s, size)) == []
  {}

  lemma NextBucket(s: seq<Sample>, i: nat, end: nat, size: nat)
    requires i < |s| && size > 0 && end == if i + size > |s| then |s| else i + size
    ensures Points(Buckets(s[i..], size)) == [PointOf(s[i..end])] + Points(Buckets(s[end..], size))
  {
    hide PointOf;
    assert s[i..][..end - i] == s[i..end] && s[i..][end - i..] == s[end..];
    if end == |s| { assert s[i..end] == s[i..] && s[end..] == []; }
    assert Buckets(s[i..], size) == [s[i..end]] + Buckets(s[end..], size);
  }

  method Select<M>(all: seq<M>, timeOf: M -> int, valueOf: M -> Option<real>) returns (samples: seq<Sample>)
    ensures samples == Selected(all, timeOf, valueOf)
  {
    samples := [];
    for n := 0 to |all|
      invariant samples == Selected(all[..n], timeOf, valueOf)
    {
      assert all[..n + 1][..n] == all[..n];
      var v := valueOf(all[n]);
      if v.Some? { samples := samples + [Sample(timeOf(all[n]), v.value)]; }
    }
    assert all[..|all|] == all;
  }

  method Average(bucket: seq<Sample>) returns (p: Point)
    requires bucket != []
    ensures p == PointOf(bucket)
  {
    var sumV, sumT := 0.0, 0;
    for n := 0 to |bucket|
      invariant sumV == SumV(bucket[..n]) && sumT == SumT(bucket[..n])
    {
      assert bucket[..n + 1][..n] == bucket[..n];
      sumV := sumV + bucket[n].v;
      sumT := sumT + bucket[n].t;
    }
    assert bucket[..|bucket|] == bucket;
    var n := |bucket| as real;
    p := Point(Truncate(sumT as real / n), sumV / n);
  }

  // ---------- what the buckets keep ----------

  /** The buckets are contiguous and miss nothing. */
  lemma {:induction false} BucketsPartition(s: seq<Sample>, size: nat)
    requires size > 0
    ensures Concat(Buckets(s, size)) == s
  {
    if |s| > size {
      BucketsPartition(s[size..], size);
      assert s == s[..size] + s[size..];
    } else if s != [] {
      assert Concat([s]) == s + Concat([]);
    }
  }

  lemma {:induction false} BucketCount(s: seq<Sample>, size: nat)
    requires size > 0
    ensures (|Buckets(s, size)| - 1) * size < |s| || s == []
    ensures |s| <= |Buckets(s, size)| * size
    ensures s == [] <==> |Buckets(s, size)| == 0
  {
    if |s| > size { BucketCount(s[size..], size); }
  }

  lemma Scale(a: int, b: int, c: nat)
    requires a <= b
    ensures a * c <= b * c
  {}

  lemma CountBounds(n: nat, points: nat, size: nat, count: nat)
    requires points > 0 && n > 0 && size == SizeFor(n, points)
    requires (count - 1) * size < n <= count * size
    ensures (if n < points then n else points) <= count <= 2 * points - 1
  {
    if n / points >= 1 {
      assert points * size <= n < points * size + points;
      CountBoundsLarge(n, points, size, count);
    }
  }

  lemma CountBoundsLarge(n: nat, points: nat, size: nat, count: nat)
    requires points > 0 && size > 0
    requires points * size <= n < points * size + points
    requires (count - 1) * size < n <= count * size
    ensures points <= count <= 2 * points - 1
  {
    Scale(1, size, points - 1);
    assert (points - 1) * size == points * size - size;
    assert (2 * points - 1) * size == points * size + (points - 1) * size;
    if count < points {
      Scale(count, points - 1, size);
    } else if count >= 2 * points {
      Scale(2 * points - 1, count - 1, size);
    }
  }

  /**
   * With n samples and p >= 1 requested points, between min(n, p) and 2p - 1
   * points come back, and none when there are no samples.
   */
  lemma PointCount(s: seq<Sample>, points: nat)
    requires points > 0
    ensures var count := |Points(Buckets(s, SizeFor(|s|, points)))|;
      if s == [] then count == 0
      else (if |s| < points then |s| else points) <= count <= 2 * points - 1
  {
    BucketCount(s, SizeFor(|s|, points));
    if s != [] {
      CountBounds(|s|, points, SizeFor(|s|, points), |Buckets(s, SizeFor(|s|, points))|);
    }
  }

  /** The averages weighted by the sizes of their buckets. */
  function Weighted(b: seq<seq<Sample>>, p: seq<Point>): real
    requires |b| == |p|
  {
    if b == [] then 0.0 else |b[0]| as real * p[0].value + Weighted(b[1..], p[1..])
  }

  lemma {:induction false} SumSplits(a: seq<Sample>, b: seq<Sample>)
    ensures SumV(a + b) == SumV(a) + SumV(b) && SumT(a + b) == SumT(a) + SumT(b)
  {
    if b == [] {
      assert a + b == a;
    } else {
      assert (a + b)[..|a + b| - 1] == a + b[..|b| - 1];
      SumSplits(a, b[..|b| - 1]);
    }
  }

  lemma SumOfOne(x: Sample)
    ensures SumV([x]) == x.v && SumT([x]) == x.t
  {
    assert [x][..0] == [];
  }

  /** The value of a point is the mean of its bucket, and its time the mean time without its fraction. */
  lemma PointIsMean(bucket: seq<Sample>)
    requires bucket != []
    ensures var p, n, sum := PointOf(bucket), |bucket|, SumT(bucket);
      && p.value * n as real == SumV(bucket)
      && (if sum >= 0 then p.time * n <= sum < (p.time + 1) * n else (p.time - 1) * n < sum <= p.time * n)
  {
    MeanTruncated(SumT(bucket), |bucket|);
  }

  lemma MeanTruncated(sum: int, n: nat)
    requires n > 0
    ensures var t := Truncate(sum as real / n as real);
      if sum >= 0 then t * n <= sum < (t + 1) * n else (t - 1) * n < sum <= t * n
  {
    var q := sum as real / n as real;
    assert q * n as real == sum as real;
    if sum >= 0 {
      FloorTimes(q, n, sum);
    } else {
      assert -q * n as real == (-sum) as real;
      FloorTimes(-q, n, -sum);
    }
  }

  lemma FloorTimes(q: real, n: nat, sum: nat)
    requires n > 0 && q * n as real == sum as real
    ensures q >= 0.0 && q.Floor * n <= sum < (q.Floor + 1) * n
  {
    SignOfFactor(q, n as real);
    var f := q.Floor;
    var below, above := q - f as real, (f + 1) as real - q;
    assert below * n as real == (sum - f * n) as real && above * n as real == ((f + 1) * n - sum) as real;
    assert below * n as real >= 0.0 && above * n as real > 0.0;
  }

  lemma {:induction false} WeightedIsSum(b: seq<seq<Sample>>)
    requires forall k :: 0 <= k < |b| ==> b[k] != []
    ensures Weighted(b, Points(b)) == SumV(Concat(b))
  {
    if b != [] {
      assert Points(b)[1..] == Points(b[1..]);
      WeightedIsSum(b[1..]);
      SumSplits(b[0], Concat(b[1..]));
    }
  }

  /** Averaging conserves the sum of the samples. */
  lemma SumConserved(s: seq<Sample>, size: nat)
    requires size > 0
    ensures Weighted(Buckets(s, size), Points(Buckets(s, size))) == SumV(s)
  {
    BucketsPartition(s, size);
    WeightedIsSum(Buckets(s, size));
  }

  ghost predicate TimesAscend(s: seq<Sample>) {
    forall i, j :: 0 <= i < j < |s| ==> s[i].t <= s[j].t
  }

  lemma {:induction false} SumTBounds(s: seq<Sample>, lo: int, hi: int)
    requires forall i :: 0 <= i < |s| ==> lo <= s[i].t <= hi
    ensures lo * |s| <= SumT(s) <= hi * |s|
  {
    if s != [] { SumTBounds(s[..|s| - 1], lo, hi); }
  }

  lemma MeanBetween(sum: int, n: nat, lo: int, hi: int)
    requires n > 0 && lo * n <= sum <= hi * n
    ensures lo <= Truncate(sum as real / n as real) <= hi
  {
    assert (lo * n) as real == lo as real * n as real;
    assert (hi * n) as real == hi as real * n as real;
    QuotientBetween(sum as real, n as real, lo as real, hi as real);
  }

  /** The time of a point lies between the first and the last time of its bucket. */
  lemma PointTimeInside(bucket: seq<Sample>)
    requires bucket != [] && TimesAscend(bucket)
    ensures bucket[0].t <= PointOf(bucket).time <= bucket[|bucket| - 1].t
  {
    var lo, hi := bucket[0].t, bucket[|bucket| - 1].t;
    SumTBounds(bucket, lo, hi);
    MeanBetween(SumT(bucket), |bucket|, lo, hi);
  }

  ghost predicate PointsAscend(p: seq<Point>) {
    forall i, j :: 0 <= i < j < |p| ==> p[i].time <= p[j].time
  }

  ghost predicate NoneBefore(p: seq<Point>, t: int) {
    forall k :: 0 <= k < |p| ==> t <= p[k].time
  }

  /** Samples in time order give points in time order. */
  lemma {:induction false} TimesKeptInOrder(s: seq<Sample>, size: nat)
    requires size > 0 && TimesAscend(s)
    ensures PointsAscend(Points(Buckets(s, size)))
    ensures s != [] ==> NoneBefore(Points(Buckets(s, size)), s[0].t)
  {
    hide PointOf;
    if s != [] && |s| <= size {
      PointTimeInside(s);
    } else if s != [] {
      var head, tail := s[..size], s[size..];
      TimesKeptInOrder(tail, size);
      PointTimeInside(head);
      var p, q := Points(Buckets(s, size)), Points(Buckets(tail, size));
      assert p == [PointOf(head)] + q;
      assert p[0].time <= head[size - 1].t <= tail[0].t;
    }
  }
}
