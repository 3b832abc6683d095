/**
 Averaging a series into time buckets: `downsample` (src/olmo_eval/upload/inference.py), over
 the reals and without the rounding of times to three digits.
 */
module Downsample {
  import opened Collections

  datatype Point = Point(x: real, y: real)

  // ------------------------------------------------------------------ sorting

  /** Tuple order: by time, then by value. */
  predicate AtMost(p: Point, q: Point) {
    p.x < q.x || (p.x == q.x && p.y <= q.y)
  }

  predicate Ordered(points: seq<Point>) {
    forall i, j :: 0 <= i < j < |points| ==> AtMost(points[i], points[j])
  }

  function Insert(points: seq<Point>, p: Point): seq<Point> {
    if points == [] || AtMost(points[|points| - 1], p) then points + [p]
    else Insert(points[..|points| - 1], p) + [points[|points| - 1]]
  }

  function Sorted(points: seq<Point>): seq<Point> {
    if points == [] then [] else Insert(Sorted(points[..|points| - 1]), points[|points| - 1])
  }

  lemma {:induction false} InsertAdds(points: seq<Point>, p: Point)
    ensures multiset(Insert(points, p)) == multiset(points) + multiset{p}
  {
    if points != [] {
      var front, last := points[..|points| - 1], points[|points| - 1];
      assert points == front + [last];
      InsertAdds(front, p);
    }
  }

  lemma {:induction false} InsertKeeps(points: seq<Point>, p: Point)
    requires Ordered(points)
    ensures Ordered(Insert(points, p))
  {
    if points != [] && !AtMost(points[|points| - 1], p) {
      var front, last := points[..|points| - 1], points[|points| - 1];
      InsertKeeps(front, p);
      InsertAdds(front, p);
      forall q | q in Insert(front, p) ensures AtMost(q, last) {
        assert q in multiset(front) + multiset{p};
        assert q in front || q == p;
      }
      OrderedMore(Insert(front, p), last);
    }
  }

  lemma OrderedMore(points: seq<Point>, p: Point)
    requires Ordered(points) && forall q :: q in points ==> AtMost(q, p)
    ensures Ordered(points + [p])
  {
  }

  lemma {:induction false} SortedIs(points: seq<Point>)
    ensures Ordered(Sorted(points)) && multiset(Sorted(points)) == multiset(points)
    ensures |Sorted(points)| == |points|
  {
    if points != [] {
      var front, last := points[..|points| - 1], points[|points| - 1];
      assert points == front + [last];
      SortedIs(front);
      InsertKeeps(Sorted(front), last);
      InsertAdds(Sorted(front), last);
    }
    assert |Sorted(points)| == |multiset(Sorted(points))| && |points| == |multiset(points)|;
  }

  // ------------------------------------------------------------------ buckets

  datatype Scale = Scale(start: real, width: real, maxPoints: int)

  /** int() cuts toward zero. */
  function Truncate(r: real): int {
    if r >= 0.0 then r.Floor else -((-r).Floor)
  }

  function Slot(r: real, maxPoints: int): int {
    if Truncate(r) < maxPoints - 1 then Truncate(r) else maxPoints - 1
  }

  function Bucket(s: Scale, x: real): int
    requires s.width != 0.0
  {
    Slot((x - s.start) / s.width, s.maxPoints)
  }

  lemma DivideUp(a: real, b: real, w: real)
    requires a <= b && w > 0.0
    ensures a / w <= b / w
  {
  }

  lemma SlotRises(a: real, a': real, m: int)
    requires 0.0 <= a <= a'
    ensures Slot(a, m) <= Slot(a', m)
    ensures m >= 1 ==> 0 <= Slot(a, m) < m
    ensures a' <= m as real && Slot(a, m) == Slot(a', m) ==> a' - a <= 1.0
  {
  }

  lemma BucketRises(s: Scale, x: real, x': real)
    requires s.width > 0.0 && s.start <= x <= x'
    ensures Bucket(s, x) <= Bucket(s, x')
    ensures s.maxPoints >= 1 ==> 0 <= Bucket(s, x) < s.maxPoints
  {
    hide Slot;
    DivideUp(0.0, x - s.start, s.width);
    DivideUp(x - s.start, x' - s.start, s.width);
    SlotRises((x - s.start) / s.width, (x' - s.start) / s.width, s.maxPoints);
  }

  /** A bucket spans its width, the last one up to the last time. */
  lemma BucketSpan(s: Scale, x: real, x': real)
    requires s.width > 0.0 && s.maxPoints >= 1 && s.start <= x <= x' <= s.start + s.width * s.maxPoints as real
    requires Bucket(s, x) == Bucket(s, x')
    ensures x' - x <= s.width
  {
    hide Slot;
    var m := s.maxPoints as real;
    DivideUp(0.0, x - s.start, s.width);
    DivideUp(x - s.start, x' - s.start, s.width);
    DivideUp(x' - s.start, s.width * m, s.width);
    Divided(m, s.width);
    SlotRises((x - s.start) / s.width, (x' - s.start) / s.width, s.maxPoints);
    Apart(x - s.start, x' - s.start, s.width);
  }

  lemma Divided(m: real, w: real)
    requires w > 0.0
    ensures w * m / w == m
  {
  }

  lemma Apart(a: real, b: real, w: real)
    requires w > 0.0 && b / w - a / w <= 1.0
    ensures b - a <= w
  {
    var q := b / w - a / w;
    assert q * w == b - a;
    assert q * w <= 1.0 * w;
  }

  // ------------------------------------------------------------------ runs

  datatype Totals = Totals(x: real, y: real, n: nat)

  const NO_TOTALS := Totals(0.0, 0.0, 0)

  function Plus(t: Totals, p: Point): Totals {
    Totals(t.x + p.x, t.y + p.y, t.n + 1)
  }

  function Total(run: seq<Point>): (t: Totals)
    ensures t.n == |run|
  {
    if run == [] then NO_TOTALS else Plus(Total(run[..|run| - 1]), run[|run| - 1])
  }

  function Mean(t: Totals): Point
    requires t.n > 0
  {
    Point(t.x / t.n as real, t.y / t.n as real)
  }

  predicate NonEmpty(runs: seq<seq<Point>>) {
    forall i :: 0 <= i < |runs| ==> runs[i] != []
  }

  /** Consecutive runs, none empty, that make up the points; two points share a run as they share a bucket. */
  ghost predicate RunsOf(runs: seq<seq<Point>>, points: seq<Point>, s: Scale)
    requires s.width != 0.0
  {
    && Flatten(runs) == points
    && NonEmpty(runs)
    && (forall i, p :: 0 <= i < |runs| && p in runs[i] ==> Bucket(s, p.x) == Bucket(s, runs[i][0].x))
    && (forall i, j :: 0 <= i < j < |runs| ==> Bucket(s, runs[i][0].x) < Bucket(s, runs[j][0].x))
  }

  /** One more point, with a bucket no lower than the last. */
  ghost function NextRuns(runs: seq<seq<Point>>, p: Point, s: Scale): seq<seq<Point>>
    requires s.width != 0.0 && NonEmpty(runs)
  {
    var n := |runs| - 1;
    if n >= 0 && Bucket(s, runs[n][0].x) == Bucket(s, p.x) then runs[..n] + [runs[n] + [p]] else runs + [[p]]
  }

  lemma NextRunsOf(runs: seq<seq<Point>>, points: seq<Point>, p: Point, s: Scale)
    requires s.width != 0.0 && RunsOf(runs, points, s)
    requires runs != [] ==> Bucket(s, runs[|runs| - 1][0].x) <= Bucket(s, p.x)
    ensures RunsOf(NextRuns(runs, p, s), points + [p], s)
  {
    hide Bucket;
    var n, runs' := |runs| - 1, NextRuns(runs, p, s);
    if n >= 0 && Bucket(s, runs[n][0].x) == Bucket(s, p.x) {
      assert runs'[..n] == runs[..n];
      assert Flatten(runs') == points + [p];
    } else {
      assert runs'[..n + 1] == runs;
    }
  }

  function Buckets(runs: seq<seq<Point>>, s: Scale): (keys: seq<int>)
    requires s.width != 0.0 && NonEmpty(runs)
    ensures |keys| == |runs| && forall i :: 0 <= i < |runs| ==> keys[i] == Bucket(s, runs[i][0].x)
  {
    if runs == [] then [] else Buckets(runs[..|runs| - 1], s) + [Bucket(s, runs[|runs| - 1][0].x)]
  }

  /** The totals of every run under its bucket. */
  ghost function SumsOf(runs: seq<seq<Point>>, s: Scale): (sums: map<int, Totals>)
    requires s.width != 0.0 && NonEmpty(runs)
    ensures forall b :: b in sums <==> b in Buckets(runs, s)
  {
    if runs == [] then map[]
    else
      var n := |runs| - 1;
      SumsOf(runs[..n], s)[Bucket(s, runs[n][0].x) := Total(runs[n])]
  }

  lemma NextTotal(run: seq<Point>, p: Point)
    ensures Total(run + [p]) == Plus(Total(run), p)
    ensures Total([p]) == Plus(NO_TOTALS, p)
  {
    assert (run + [p])[..|run|] == run && [p][..0] == [];
  }

  lemma RunsRise(runs: seq<seq<Point>>, points: seq<Point>, s: Scale)
    requires s.width != 0.0 && RunsOf(runs, points, s)
    ensures Rising(Buckets(runs, s))
  {
    hide Bucket;
  }

  lemma SumsNext(runs: seq<seq<Point>>, run: seq<Point>, s: Scale)
    requires s.width != 0.0 && NonEmpty(runs) && run != []
    ensures SumsOf(runs + [run], s) == SumsOf(runs, s)[Bucket(s, run[0].x) := Total(run)]
  {
    hide Bucket, Total, Buckets;
    assert (runs + [run])[..|runs|] == runs;
  }

  lemma BucketsNext(runs: seq<seq<Point>>, run: seq<Point>, s: Scale)
    requires s.width != 0.0 && NonEmpty(runs) && run != []
    ensures Buckets(runs + [run], s) == Buckets(runs, s) + [Bucket(s, run[0].x)]
  {
    hide Bucket;
    assert (runs + [run])[..|runs|] == runs;
  }

  lemma {:induction false} SumsAre(runs: seq<seq<Point>>, s: Scale, i: nat)
    requires s.width != 0.0 && NonEmpty(runs) && Rising(Buckets(runs, s))
    requires i < |runs|
    ensures SumsOf(runs, s)[Buckets(runs, s)[i]] == Total(runs[i])
  {
    hide Bucket, Total, SumsOf, Buckets;
    var n := |runs| - 1;
    var front := runs[..n];
    assert runs == front + [runs[n]];
    SumsNext(front, runs[n], s);
    BucketsNext(front, runs[n], s);
    assert Buckets(front, s) == Buckets(runs, s)[..n];
    if i < n {
      assert Buckets(runs, s)[i] < Buckets(runs, s)[n];
      SumsAre(front, s, i);
    }
  }

  lemma SameBucketSums(runs: seq<seq<Point>>, run: seq<Point>, s: Scale, p: Point)
    requires s.width != 0.0 && NonEmpty(runs)
    requires run != [] && Bucket(s, run[0].x) == Bucket(s, p.x)
    ensures
      var b := Bucket(s, p.x);
      && b in SumsOf(runs + [run], s)
      && SumsOf(runs + [run + [p]], s) == SumsOf(runs + [run], s)[b := Plus(SumsOf(runs + [run], s)[b], p)]
  {
    hide *;
    NextTotal(run, p);
    assert (run + [p])[0] == run[0];
    SumsNext(runs, run, s);
    SumsNext(runs, run + [p], s);
  }

  lemma NewBucketSums(runs: seq<seq<Point>>, s: Scale, p: Point)
    requires s.width != 0.0 && NonEmpty(runs) && Rising(Buckets(runs, s))
    requires runs != [] ==> Bucket(s, runs[|runs| - 1][0].x) < Bucket(s, p.x)
    ensures
      var b := Bucket(s, p.x);
      && b !in SumsOf(runs, s)
      && SumsOf(runs + [[p]], s) == SumsOf(runs, s)[b := Plus(NO_TOTALS, p)]
  {
    hide Bucket, Total, Plus;
    NextTotal([], p);
    SumsNext(runs, [p], s);
    assert forall i :: 0 <= i < |runs| ==> Buckets(runs, s)[i] <= Buckets(runs, s)[|runs| - 1];
  }

  lemma NextSums(runs: seq<seq<Point>>, points: seq<Point>, p: Point, s: Scale)
    requires s.width != 0.0 && RunsOf(runs, points, s)
    requires runs != [] ==> Bucket(s, runs[|runs| - 1][0].x) <= Bucket(s, p.x)
    ensures NonEmpty(NextRuns(runs, p, s))
    ensures
      var b, sums := Bucket(s, p.x), SumsOf(runs, s);
      SumsOf(NextRuns(runs, p, s), s) == sums[b := Plus(if b in sums then sums[b] else NO_TOTALS, p)]
  {
    hide Bucket, Flatten, Total, Plus, SumsOf, Buckets, Rising;
    RunsRise(runs, points, s);
    var n := |runs| - 1;
    if n >= 0 && Bucket(s, runs[n][0].x) == Bucket(s, p.x) {
      assert runs == runs[..n] + [runs[n]];
      SameBucketSums(runs[..n], runs[n], s, p);
    } else {
      NewBucketSums(runs, s, p);
    }
  }

  // ------------------------------------------------------------------ the buckets in order

  /** sorted() of dictionary items with different keys: by key. */
  method SortKeys(keys: set<int>) returns (sorted: seq<int>)
    ensures Rising(sorted) && forall k :: k in sorted <==> k in keys
  {
    sorted := [];
    var rest := keys;
    while rest != {}
      invariant Rising(sorted) && rest <= keys
      invariant forall k :: k in sorted <==> k in keys && k !in rest
      invariant forall k, l :: k in sorted && l in rest ==> k < l
      decreases |rest|
    {
      LeastExists(rest);
      var k :| k in rest && forall l :: l in rest ==> k <= l;
      assert forall i :: 0 <= i < |sorted| ==> sorted[i] in sorted;
      sorted := sorted + [k];
      rest := rest - {k};
    }
  }

  lemma {:induction false} LeastExists(keys: set<int>)
    requires keys != {}
    ensures exists k :: k in keys && forall l :: l in keys ==> k <= l
  {
    var k := Element(keys);
    if keys != {k} {
      LeastExists(keys - {k});
      var m :| m in keys - {k} && forall l :: l in keys - {k} ==> m <= l;
      assert forall l :: l in keys ==> l == k || l in keys - {k};
      if k <= m {
        assert forall l :: l in keys ==> k <= l;
      } else {
        assert forall l :: l in keys ==> m <= l;
      }
    }
  }

  lemma HasMember(keys: seq<int>)
    requires keys != []
    ensures exists k :: k in keys
  {
    var k := keys[0];
    assert k in keys;
  }

  /** There is one way to put keys in order. */
  lemma {:induction false} RisingUnique(a: seq<int>, b: seq<int>)
    requires Rising(a) && Rising(b) && forall k :: k in a <==> k in b
    ensures a == b
  {
    if b != [] {
      HasMember(b);
    }
    if a != [] {
      HasMember(a);
      var n, m := |a| - 1, |b| - 1;
      assert a[n] in b && (b != [] ==> b[m] in a);
      assert a[n] == b[m];
      forall k ensures k in a[..n] <==> k in b[..m] {
        assert k in a[..n] <==> k in a && k != a[n];
        assert k in b[..m] <==> k in b && k != b[m];
      }
      RisingUnique(a[..n], b[..m]);
      assert a == a[..n] + [a[n]] && b == b[..m] + [b[m]];
    }
  }

  lemma {:induction false} RisingBounded(keys: seq<int>, n: nat)
    requires Rising(keys) && forall i :: 0 <= i < |keys| ==> 0 <= keys[i] < n
    ensures |keys| <= n
  {
    if keys != [] {
      var m := |keys| - 1;
      assert keys[..m] == [] || keys[m - 1] < keys[m];
      RisingBounded(keys[..m], keys[m]);
    }
  }

  // ------------------------------------------------------------------ downsample

  datatype Result = Series(points: seq<Point>) | IndexOutOfRange | ZeroDivision

  /** (end - start) / max_points, or 1 when that is zero. */
  function Width(points: seq<Point>, maxPoints: int): real
    requires points != [] && maxPoints != 0
  {
    var width := (points[|points| - 1].x - points[0].x) / maxPoints as real;
    if width == 0.0 then 1.0 else width
  }

  function ScaleOf(points: seq<Point>, maxPoints: int): (s: Scale)
    requires points != [] && maxPoints != 0
    ensures s.width != 0.0
  {
    Scale(points[0].x, Width(points, maxPoints), maxPoints)
  }

  /** The times lie on the scale. */
  lemma OnScale(points: seq<Point>, maxPoints: int, i: nat)
    requires points != [] && maxPoints >= 1 && Ordered(points) && i < |points|
    ensures var s := ScaleOf(points, maxPoints);
      s.width > 0.0 && s.start <= points[i].x <= s.start + s.width * maxPoints as real
  {
    var first, last := points[0].x, points[|points| - 1].x;
    assert first <= points[i].x <= last;
    var m := maxPoints as real;
    Filled(last - first, m);
  }

  lemma Filled(length: real, m: real)
    requires length >= 0.0 && m >= 1.0
    ensures length / m >= 0.0 && (length / m) * m == length
    ensures length / m == 0.0 ==> length == 0.0
  {
  }

  /** Each output is the mean of its run. */
  ghost predicate Means(points: seq<Point>, runs: seq<seq<Point>>) {
    |points| == |runs| && forall i :: 0 <= i < |runs| ==> runs[i] != [] && points[i] == Mean(Total(runs[i]))
  }

  lemma NoRuns(s: Scale)
    requires s.width != 0.0
    ensures RunsOf([], [], s) && SumsOf([], s) == map[]
  {
  }

  /** The point at k joins the last run or begins the next. */
  lemma NextPoint(points: seq<Point>, maxPoints: int, runs: seq<seq<Point>>, k: nat)
    requires maxPoints >= 1 && k < |points| && Ordered(points)
    requires RunsOf(runs, points[..k], ScaleOf(points, maxPoints))
    ensures
      var s, p := ScaleOf(points, maxPoints), points[k];
      var b, sums := Bucket(s, p.x), SumsOf(runs, s);
      && RunsOf(NextRuns(runs, p, s), points[..k + 1], s) && NonEmpty(NextRuns(runs, p, s))
      && SumsOf(NextRuns(runs, p, s), s) == sums[b := Plus(if b in sums then sums[b] else NO_TOTALS, p)]
  {
    var s, p := ScaleOf(points, maxPoints), points[k];
    assert points[..k + 1] == points[..k] + [p];
    if runs != [] {
      var n := |runs| - 1;
      var q := runs[n][|runs[n]| - 1];
      assert q in runs[n];
      LastOfFlatten(runs);
      assert points[k - 1] == q;
      OnScale(points, maxPoints, k - 1);
      BucketRises(s, q.x, p.x);
    }
    NextRunsOf(runs, points[..k], p, s);
    NextSums(runs, points[..k], p, s);
  }

  lemma LastOfFlatten(runs: seq<seq<Point>>)
    requires runs != [] && NonEmpty(runs)
    ensures Flatten(runs) != []
    ensures Flatten(runs)[|Flatten(runs)| - 1] == runs[|runs| - 1][|runs[|runs| - 1]| - 1]
  {
  }

  lemma KeysAreRuns(
    points: seq<Point>, maxPoints: int, runs: seq<seq<Point>>, keys: seq<int>, means: seq<Point>)
    requires maxPoints >= 1 && points != [] && Ordered(points)
    requires RunsOf(runs, points, ScaleOf(points, maxPoints)) && Rising(keys)
    requires
      var sums := SumsOf(runs, ScaleOf(points, maxPoints));
      && (forall k :: k in keys <==> k in sums) && (forall b :: b in sums ==> sums[b].n > 0)
      && |means| == |keys|
      && forall i :: 0 <= i < |keys| ==>
           keys[i] in sums && sums[keys[i]].n > 0 && means[i] == Mean(sums[keys[i]])
    ensures Means(means, runs) && |means| <= maxPoints
  {
    var s := ScaleOf(points, maxPoints);
    RunsRise(runs, points, s);
    RisingUnique(keys, Buckets(runs, s));
    forall i | 0 <= i < |runs| ensures means[i] == Mean(Total(runs[i])) && 0 <= keys[i] < maxPoints {
      SumsAre(runs, s, i);
      FirstOnScale(points, maxPoints, runs, i);
      BucketRises(s, runs[i][0].x, runs[i][0].x);
    }
    RisingBounded(keys, maxPoints);
  }

  lemma FirstOnScale(points: seq<Point>, maxPoints: int, runs: seq<seq<Point>>, i: nat)
    requires maxPoints >= 1 && points != [] && Ordered(points) && i < |runs|
    requires RunsOf(runs, points, ScaleOf(points, maxPoints))
    ensures var s := ScaleOf(points, maxPoints); s.width > 0.0 && s.start <= runs[i][0].x
  {
    InFlatten(runs, i, runs[i][0]);
    var k :| 0 <= k < |points| && points[k] == runs[i][0];
    OnScale(points, maxPoints, k);
  }

  lemma {:induction false} InFlatten(runs: seq<seq<Point>>, i: nat, p: Point)
    requires i < |runs| && p in runs[i]
    ensures p in Flatten(runs)
  {
    if i < |runs| - 1 {
      InFlatten(runs[..|runs| - 1], i, p);
    }
  }

  /** The first loop: totals by bucket. */
  method SumBuckets(points: seq<Point>, maxPoints: int) returns (sums: map<int, Totals>, ghost runs: seq<seq<Point>>)
    requires points != [] && Ordered(points) && maxPoints != 0
    ensures forall b :: b in sums ==> sums[b].n > 0
    ensures maxPoints >= 1 ==>
      var s := ScaleOf(points, maxPoints); RunsOf(runs, points, s) && sums == SumsOf(runs, s)
  {
    hide Bucket, ScaleOf, Ordered, RunsOf, SumsOf, NextRuns, NonEmpty;
    var s := ScaleOf(points, maxPoints);
    sums, runs := map[], [];
    NoRuns(s);
    assert points[..0] == [];
    for k := 0 to |points|
      invariant forall b :: b in sums ==> sums[b].n > 0
      invariant maxPoints >= 1 ==> RunsOf(runs, points[..k], s) && NonEmpty(runs) && sums == SumsOf(runs, s)
    {
      var p := points[k];
      if maxPoints >= 1 {
        NextPoint(points, maxPoints, runs, k);
        runs := NextRuns(runs, p, s);
      }
      var b := Bucket(s, p.x);
      sums := sums[b := Plus(if b in sums then sums[b] else NO_TOTALS, p)];
    }
    assert points[..|points|] == points;
  }

  /** The result: means by bucket, in the order of the buckets. */
  method Averages(sums: map<int, Totals>) returns (means: seq<Point>, keys: seq<int>)
    requires forall b :: b in sums ==> sums[b].n > 0
    ensures Rising(keys) && |means| == |keys| && forall k :: k in keys <==> k in sums
    ensures forall i :: 0 <= i < |keys| ==> keys[i] in sums && sums[keys[i]].n > 0 && means[i] == Mean(sums[keys[i]])
  {
    hide Mean, Rising;
    keys := SortKeys(sums.Keys);
    means := [];
    for i := 0 to |keys|
      invariant |means| == i
      invariant forall j :: 0 <= j < i ==> keys[j] in sums && sums[keys[j]].n > 0 && means[j] == Mean(sums[keys[j]])
    {
      var key := keys[i];
      assert key in keys;
      means := means + [Mean(sums[key])];
    }
  }

  /** `runs` are the points each output stands for. */
  method Downsample(points: seq<Point>, maxPoints: int) returns (r: Result, ghost runs: seq<seq<Point>>)
    ensures |points| <= maxPoints ==> r == Series(Sorted(points))
    ensures r.IndexOutOfRange? <==> points == [] && maxPoints < 0
    ensures r.ZeroDivision? <==> points != [] && maxPoints == 0
    ensures 1 <= maxPoints < |points| ==>
      && r.Series? && Means(r.points, runs) && |r.points| <= maxPoints
      && RunsOf(runs, Sorted(points), ScaleOf(Sorted(points), maxPoints))
  {
    hide *;
    runs := [];
    SortedIs(points);
    if |points| <= maxPoints {
      return Series(Sorted(points)), runs;
    }
    var sorted := Sorted(points);
    if sorted == [] {
      return IndexOutOfRange, runs;
    }
    if maxPoints == 0 {
      return ZeroDivision, runs;
    }
    var sums;
    sums, runs := SumBuckets(sorted, maxPoints);
    var means, keys := Averages(sums);
    if maxPoints >= 1 {
      KeysAreRuns(sorted, maxPoints, runs, keys, means);
    }
    return Series(means), runs;
  }

  // ------------------------------------------------------------------ what the averages keep

  lemma {:induction false} TotalSum(a: seq<Point>, b: seq<Point>)
    ensures Total(a + b) == Totals(Total(a).x + Total(b).x, Total(a).y + Total(b).y, |a| + |b|)
  {
    if b == [] {
      assert a + b == a;
    } else {
      TotalSum(a, b[..|b| - 1]);
      assert (a + b)[..|a + b| - 1] == a + b[..|b| - 1];
    }
  }

  lemma {:induction false} InsertTotal(points: seq<Point>, p: Point)
    ensures Total(Insert(points, p)) == Plus(Total(points), p)
  {
    if points == [] || AtMost(points[|points| - 1], p) {
      NextTotal(points, p);
    } else {
      InsertTotal(points[..|points| - 1], p);
      NextTotal(Insert(points[..|points| - 1], p), points[|points| - 1]);
    }
  }

  /** Sorting keeps the sums. */
  lemma {:induction false} SortedTotal(points: seq<Point>)
    ensures Total(Sorted(points)) == Total(points)
  {
    if points != [] {
      SortedTotal(points[..|points| - 1]);
      InsertTotal(Sorted(points[..|points| - 1]), points[|points| - 1]);
    }
  }

  function Times(p: Point, n: nat): Point {
    Point(p.x * n as real, p.y * n as real)
  }

  /** The sums of the averages, each counted as often as its run has points. */
  function Weighted(means: seq<Point>, runs: seq<seq<Point>>): Point
    requires |means| == |runs|
  {
    if runs == [] then Point(0.0, 0.0)
    else
      var n := |runs| - 1;
      var before, last := Weighted(means[..n], runs[..n]), Times(means[n], |runs[n]|);
      Point(before.x + last.x, before.y + last.y)
  }

  lemma {:induction false} WeightedIsTotal(means: seq<Point>, runs: seq<seq<Point>>)
    requires Means(means, runs)
    ensures Weighted(means, runs) == Point(Total(Flatten(runs)).x, Total(Flatten(runs)).y)
  {
    hide Mean, Times;
    if runs != [] {
      var n := |runs| - 1;
      WeightedIsTotal(means[..n], runs[..n]);
      TotalSum(Flatten(runs[..n]), runs[n]);
      MeanTimesCount(Total(runs[n]));
    }
  }

  lemma MeanTimesCount(t: Totals)
    requires t.n > 0
    ensures Times(Mean(t), t.n) == Point(t.x, t.y)
  {
  }

  lemma {:induction false} TotalAbove(run: seq<Point>, low: real)
    requires run != [] && forall p :: p in run ==> low < p.x
    ensures Total(run).x > low * |run| as real
  {
    var n := |run| - 1;
    assert run[n] in run;
    if n > 0 {
      TotalAbove(run[..n], low);
    }
    OnceMore(low, n);
  }

  lemma {:induction false} TotalBelow(run: seq<Point>, high: real)
    requires run != [] && forall p :: p in run ==> p.x < high
    ensures Total(run).x < high * |run| as real
  {
    var n := |run| - 1;
    assert run[n] in run;
    if n > 0 {
      TotalBelow(run[..n], high);
    }
    OnceMore(high, n);
  }

  lemma OnceMore(a: real, n: nat)
    ensures a * (n + 1) as real == a * n as real + a
    ensures a * 0 as real == 0.0
  {
    assert (n + 1) as real == n as real + 1.0;
  }

  /** The mean time keeps a strict bound on the times. */
  lemma MeanAbove(run: seq<Point>, low: real)
    requires run != [] && forall p :: p in run ==> low < p.x
    ensures low < Mean(Total(run)).x
  {
    hide Total;
    TotalAbove(run, low);
    Quotient(Total(run).x, |run| as real, low);
  }

  lemma MeanBelow(run: seq<Point>, high: real)
    requires run != [] && forall p :: p in run ==> p.x < high
    ensures Mean(Total(run)).x < high
  {
    hide Total;
    TotalBelow(run, high);
    Quotient(Total(run).x, |run| as real, high);
  }

  lemma Quotient(a: real, n: real, b: real)
    requires n > 0.0
    ensures a > b * n ==> a / n > b
    ensures a < b * n ==> a / n < b
  {
    var q := a / n;
    assert q * n == a;
  }

  lemma PointOnScale(points: seq<Point>, maxPoints: int, runs: seq<seq<Point>>, i: nat, p: Point)
    requires maxPoints >= 1 && points != [] && Ordered(points) && i < |runs| && p in runs[i]
    requires RunsOf(runs, points, ScaleOf(points, maxPoints))
    ensures var s := ScaleOf(points, maxPoints);
      s.width > 0.0 && s.start <= p.x <= s.start + s.width * maxPoints as real
  {
    InFlatten(runs, i, p);
    var k :| 0 <= k < |points| && points[k] == p;
    OnScale(points, maxPoints, k);
  }

  /** The points of an earlier run are strictly earlier. */
  lemma RunsApart(points: seq<Point>, maxPoints: int, runs: seq<seq<Point>>, i: nat, j: nat, p: Point, q: Point)
    requires maxPoints >= 1 && points != [] && Ordered(points)
    requires RunsOf(runs, points, ScaleOf(points, maxPoints))
    requires i < j < |runs| && p in runs[i] && q in runs[j]
    ensures p.x < q.x
  {
    var s := ScaleOf(points, maxPoints);
    PointOnScale(points, maxPoints, runs, i, p);
    PointOnScale(points, maxPoints, runs, j, q);
    if q.x <= p.x {
      BucketRises(s, q.x, p.x);
    }
    hide Bucket;
  }

  /**
   Above the cap: output times rise strictly, each bucket spans at most its width, and the sums of
   times and values over all points are those of the outputs, weighted by their run's points.
   */
  lemma AveragesKeep(points: seq<Point>, maxPoints: int, means: seq<Point>, runs: seq<seq<Point>>)
    requires 1 <= maxPoints < |points| && Means(means, runs)
    requires Sorted(points) != [] && RunsOf(runs, Sorted(points), ScaleOf(Sorted(points), maxPoints))
    ensures forall i, j :: 0 <= i < j < |means| ==> means[i].x < means[j].x
    ensures forall i, p, q :: 0 <= i < |runs| && p in runs[i] && q in runs[i] ==>
      q.x - p.x <= ScaleOf(Sorted(points), maxPoints).width
    ensures Weighted(means, runs) == Point(Total(points).x, Total(points).y)
  {
    hide *;
    SortedIs(points);
    SortedTotal(points);
    WeightedIsTotal(means, runs);
    Runs(runs, Sorted(points), ScaleOf(Sorted(points), maxPoints));
    var sorted := Sorted(points);
    forall i, j | 0 <= i < j < |means| ensures means[i].x < means[j].x {
      MeansApart(sorted, maxPoints, means, runs, i, j);
    }
    forall i, p, q | 0 <= i < |runs| && p in runs[i] && q in runs[i]
      ensures q.x - p.x <= ScaleOf(sorted, maxPoints).width
    {
      RunSpan(sorted, maxPoints, runs, i, p, q);
    }
  }

  lemma Runs(runs: seq<seq<Point>>, points: seq<Point>, s: Scale)
    requires s.width != 0.0 && RunsOf(runs, points, s)
    ensures Flatten(runs) == points
  {
    hide Bucket;
  }

  lemma RunSpan(points: seq<Point>, maxPoints: int, runs: seq<seq<Point>>, i: nat, p: Point, q: Point)
    requires maxPoints >= 1 && points != [] && Ordered(points)
    requires RunsOf(runs, points, ScaleOf(points, maxPoints))
    requires i < |runs| && p in runs[i] && q in runs[i]
    ensures q.x - p.x <= ScaleOf(points, maxPoints).width
  {
    hide Bucket, ScaleOf, Flatten, Ordered;
    PointOnScale(points, maxPoints, runs, i, p);
    PointOnScale(points, maxPoints, runs, i, q);
    if p.x <= q.x {
      SameScale(points, maxPoints);
      BucketSpan(ScaleOf(points, maxPoints), p.x, q.x);
    }
  }

  lemma SameScale(points: seq<Point>, maxPoints: int)
    requires points != [] && maxPoints != 0
    ensures ScaleOf(points, maxPoints).maxPoints == maxPoints
  {
  }

  lemma MeansApart(points: seq<Point>, maxPoints: int, means: seq<Point>, runs: seq<seq<Point>>, i: nat, j: nat)
    requires maxPoints >= 1 && points != [] && Ordered(points) && Means(means, runs) && i < j < |means|
    requires RunsOf(runs, points, ScaleOf(points, maxPoints))
    ensures means[i].x < means[j].x
  {
    forall q | q in runs[j] ensures means[i].x < q.x {
      forall p | p in runs[i] ensures p.x < q.x {
        RunsApart(points, maxPoints, runs, i, j, p, q);
      }
      MeanBelow(runs[i], q.x);
    }
    MeanAbove(runs[j], means[i].x);
  }

  // ------------------------------------------------------------------ equal buckets

  /** The time lies in bucket b, counted from the start; the last bucket keeps its end. */
  predicate InBucket(x: real, start: real, width: real, b: int, maxPoints: int) {
    && 0 <= b < maxPoints
    && start + b as real * width <= x
    && (x < start + (b + 1) as real * width || b == maxPoints - 1)
  }

  /** Run i lies in bucket `buckets[i]` of this width; `maxPoints` of them make up the time span, if it is not zero. */
  ghost predicate Bucketed(
    points: seq<Point>, maxPoints: int, runs: seq<seq<Point>>, width: real, buckets: seq<int>)
    requires points != []
  {
    var start, span := points[0].x, points[|points| - 1].x - points[0].x;
    && (if span > 0.0 then width * maxPoints as real == span else width == 1.0)
    && |buckets| == |runs| && Rising(buckets)
    && forall i, p :: 0 <= i < |runs| && p in runs[i] ==> InBucket(p.x, start, width, buckets[i], maxPoints)
  }

  lemma SlotHolds(r: real, m: int)
    requires r >= 0.0 && m >= 1
    ensures var b := Slot(r, m);
      0 <= b < m && b as real <= r && (r < (b + 1) as real || b == m - 1)
  {
  }

  lemma Scaled(a: real, r: real, c: real, w: real, x: real)
    requires w > 0.0 && r == x / w
    ensures a <= r ==> a * w <= x
    ensures r < c ==> x < c * w
  {
    assert r * w == x;
    if a <= r {
      assert a * w <= r * w;
    }
    if r < c {
      assert r * w < c * w;
    }
  }

  lemma BucketHolds(s: Scale, x: real)
    requires s.width > 0.0 && s.maxPoints >= 1 && s.start <= x
    ensures InBucket(x, s.start, s.width, Bucket(s, x), s.maxPoints)
  {
    hide Slot;
    var r, b := (x - s.start) / s.width, Bucket(s, x);
    DivideUp(0.0, x - s.start, s.width);
    SlotHolds(r, s.maxPoints);
    Scaled(b as real, r, (b + 1) as real, s.width, x - s.start);
  }

  lemma WidthIs(points: seq<Point>, maxPoints: int)
    requires points != [] && maxPoints >= 1 && Ordered(points)
    ensures var s, span := ScaleOf(points, maxPoints), points[|points| - 1].x - points[0].x;
      && s.start == points[0].x && s.maxPoints == maxPoints && s.width > 0.0 && span >= 0.0
      && (if span > 0.0 then s.width * maxPoints as real == span else s.width == 1.0)
  {
    assert AtMost(points[0], points[|points| - 1]);
    Filled(points[|points| - 1].x - points[0].x, maxPoints as real);
  }

  /**
   The runs are the points of different buckets of one width, in order: `max_points` such buckets
   make up the time from first to last, or a bucket is one wide if that is zero.
   */
  lemma EqualBuckets(points: seq<Point>, maxPoints: int, runs: seq<seq<Point>>)
    requires 1 <= maxPoints && points != [] && Ordered(points)
    requires RunsOf(runs, points, ScaleOf(points, maxPoints))
    ensures exists width, buckets :: Bucketed(points, maxPoints, runs, width, buckets)
  {
    hide Bucket, ScaleOf, Flatten, Ordered, InBucket;
    var s := ScaleOf(points, maxPoints);
    WidthIs(points, maxPoints);
    RunsRise(runs, points, s);
    var width, buckets := s.width, Buckets(runs, s);
    forall i, p | 0 <= i < |runs| && p in runs[i] ensures InBucket(p.x, points[0].x, width, buckets[i], maxPoints) {
      PointOnScale(points, maxPoints, runs, i, p);
      BucketHolds(s, p.x);
    }
    assert Bucketed(points, maxPoints, runs, width, buckets);
  }
}
