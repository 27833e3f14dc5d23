/** The strain graph of the play overlay
    (app/states/components/overlays/play/straingraph.go): the per-section
    strain peaks are merged into buckets whose maxima become the control
    points of the drawn curve, and the playback progress is clamped into
    [0, 1] to cut the coloured and grey halves of the graph. */
module StrainGraph {
  import opened Vectors
  import opened GoMath

  datatype Graph = Graph(strains: seq<real>, maxStrain: real, startTime: real, endTime: real,
                         width: real, progress: real, leftCut: real, rightCut: real)

  function Max(a: real, b: real): real {
    if a >= b then a else b
  }

  function MinInt(a: int, b: int): int {
    if a <= b then a else b
  }

  /** How many strain sections one bucket merges: about one per 30 seconds
      of map for a 200-unit wide graph, never fewer than one. */
  function SectSize(g: Graph): (s: int)
    requires g.width != 0.0
    ensures s >= 1
    ensures s > 1 ==> s == Trunc((g.endTime - g.startTime) / 30000.0 * (200.0 / g.width))
  {
    var raw := Trunc((g.endTime - g.startTime) / 30000.0 * (200.0 / g.width));
    if raw >= 1 then raw else 1
  }

  /** Largest value of xs, or 0 if that is larger (the running maximum
      starts at 0). */
  function Peak(xs: seq<real>): (p: real)
    ensures p >= 0.0
    ensures forall k :: 0 <= k < |xs| ==> xs[k] <= p
    ensures p == 0.0 || exists k :: 0 <= k < |xs| && p == xs[k]
  {
    if |xs| == 0 then 0.0
    else
      var q := Peak(xs[..|xs| - 1]);
      assert forall k :: 0 <= k < |xs| - 1 ==> xs[..|xs| - 1][k] == xs[k];
      Max(q, xs[|xs| - 1])
  }

  /** Number of buckets: ceil(n / s). */
  function Buckets(n: nat, s: nat): nat
    requires s >= 1
  {
    (n + s - 1) / s
  }

  /** Bucket j: the sections [j*s, min(n, j*s + s)). */
  function Bucket(strains: seq<real>, s: nat, j: nat): seq<real>
    requires s >= 1 && j < Buckets(|strains|, s)
  {
    BucketCount(|strains|, s, j);
    strains[j * s .. MinInt(|strains|, j * s + s)]
  }

  lemma MulMono(a: nat, b: nat, s: nat)
    requires a <= b
    ensures a * s <= b * s
  {
  }

  /** A bucket starting at j*s exists exactly when j*s < n. */
  lemma BucketCount(n: nat, s: nat, k: nat)
    requires s >= 1
    ensures k < Buckets(n, s) <==> k * s < n
  {
    var q := (n + s - 1) / s;
    var r := (n + s - 1) % s;
    assert n + s - 1 == q * s + r && 0 <= r < s;
    if k < q {
      MulMono(k + 1, q, s);
      assert (k + 1) * s == k * s + s;
    } else {
      MulMono(q, k, s);
    }
  }

  /** The first k buckets laid end to end. */
  function JoinBuckets(strains: seq<real>, s: nat, k: nat): seq<real>
    requires s >= 1 && k <= Buckets(|strains|, s)
  {
    if k == 0 then [] else JoinBuckets(strains, s, k - 1) + Bucket(strains, s, k - 1)
  }

  /** The first k buckets, in order, cover exactly the first min(n, k*s)
      sections: the buckets neither overlap nor leave a gap. */
  lemma {:induction false} BucketsPartition(strains: seq<real>, s: nat, k: nat)
    requires s >= 1 && k <= Buckets(|strains|, s)
    ensures JoinBuckets(strains, s, k) == strains[..MinInt(|strains|, k * s)]
  {
    if k > 0 {
      var n := |strains|;
      BucketsPartition(strains, s, k - 1);
      BucketCount(n, s, k - 1);
      var lo := (k - 1) * s;
      assert lo + s == k * s;
      assert MinInt(n, lo) == lo;
      assert strains[..lo] + strains[lo..MinInt(n, k * s)] == strains[..MinInt(n, k * s)];
    }
  }

  /** All buckets together are the whole strain array. */
  lemma BucketsCoverAll(strains: seq<real>, s: nat)
    requires s >= 1
    ensures JoinBuckets(strains, s, Buckets(|strains|, s)) == strains
  {
    var k := Buckets(|strains|, s);
    BucketsPartition(strains, s, k);
    BucketCount(|strains|, s, k);
    assert strains[..MinInt(|strains|, k * s)] == strains;
  }

  lemma NextMultiple(k: nat, s: nat)
    requires s >= 1
    ensures (k * s) / s == k
    ensures k * s + s == (k + 1) * s
  {
    var q, r := (k * s) / s, (k * s) % s;
    assert k * s == q * s + r && 0 <= r < s;
  }

  /** The running maximum over sections [lo, hi), starting from 0. */
  method SectionsPeak(strains: seq<real>, lo: nat, hi: nat) returns (max: real)
    requires lo <= hi <= |strains|
    ensures max == Peak(strains[lo..hi])
  {
    max := 0.0;
    var j := lo;
    while j < hi
      invariant lo <= j <= hi
      invariant max == Peak(strains[lo..j])
    {
      assert strains[lo..j + 1][..j - lo] == strains[lo..j];
      max := Max(max, strains[j]);
      j := j + 1;
    }
  }

  /** The curve's control points for bucket size s: (0, 0), then one point
      (j + 1/2, peak of bucket j) per bucket, then (bucket count, 0). */
  ghost predicate CurveShape(points: seq<Vec2>, strains: seq<real>, s: nat)
    requires s >= 1
  {
    && |points| == Buckets(|strains|, s) + 2
    && points[0] == Vec2(0.0, 0.0)
    && points[|points| - 1] == Vec2((|points| - 2) as real, 0.0)
    && forall j :: 0 <= j < |points| - 2 ==> points[j + 1] == Vec2(j as real + 0.5, Peak(Bucket(strains, s, j)))
  }

  /** With at least one section the control points' x coordinates strictly
      increase; with none, both framing points sit at the origin. */
  lemma ShapeIncreasing(points: seq<Vec2>, strains: seq<real>, s: nat)
    requires s >= 1 && CurveShape(points, strains, s)
    ensures |strains| > 0 ==> forall a, b :: 0 <= a < b < |points| ==> points[a].x < points[b].x
    ensures |strains| == 0 ==> points == [Vec2(0.0, 0.0), Vec2(0.0, 0.0)]
  {
    BucketCount(|strains|, s, 0);
    if |strains| == 0 {
      return;
    }
    var last := |points| - 1;
    forall j | 1 <= j < last
      ensures points[j].x == (j - 1) as real + 0.5
    {
      var i := j - 1;
      assert points[i + 1] == Vec2(i as real + 0.5, Peak(Bucket(strains, s, i)));
    }
    forall a, b | 0 <= a < b < |points|
      ensures points[a].x < points[b].x
    {
      var xa := if a == 0 then 0.0 else (a - 1) as real + 0.5;
      var xb := if b == last then last as real - 1.0 else (b - 1) as real + 0.5;
      assert points[a].x == xa;
      assert points[b].x == xb;
      assert xa < xb;
    }
  }

  /** The bucketing loop for a given bucket size. */
  method BucketPoints(strains: seq<real>, s: nat, maxStrain0: real) returns (points: seq<Vec2>, maxStrain: real)
    requires s >= 1
    ensures CurveShape(points, strains, s)
    ensures maxStrain >= maxStrain0
    ensures forall j :: 1 <= j < |points| - 1 ==> points[j].y <= maxStrain
    ensures maxStrain == maxStrain0 || exists j :: 1 <= j < |points| - 1 && maxStrain == points[j].y
  {
    var n := |strains|;
    points := [Vec2(0.0, 0.0)];
    maxStrain := maxStrain0;
    var i := 0;
    ghost var k := 0;
    ghost var w := 0;
    while i < n
      invariant i == k * s
      invariant k <= Buckets(n, s)
      invariant |points| == k + 1
      invariant points[0] == Vec2(0.0, 0.0)
      invariant forall j :: 0 <= j < k ==> points[j + 1] == Vec2(j as real + 0.5, Peak(Bucket(strains, s, j)))
      invariant maxStrain >= maxStrain0
      invariant forall j :: 1 <= j < |points| ==> points[j].y <= maxStrain
      invariant maxStrain == maxStrain0 || (1 <= w < |points| && maxStrain == points[w].y)
    {
      BucketCount(n, s, k);
      var maxI := MinInt(n, i + s);
      var max := SectionsPeak(strains, i, maxI);
      assert strains[i..maxI] == Bucket(strains, s, k);
      NextMultiple(k, s);
      if max > maxStrain {
        w := k + 1;
      }
      maxStrain := Max(maxStrain, max);
      points := points + [Vec2((i / s) as real + 0.5, max)];
      i := i + s;
      k := k + 1;
    }
    BucketCount(n, s, k);
    points := points + [Vec2((|points| - 1) as real, 0.0)];
    assert maxStrain != maxStrain0 ==> 1 <= w < |points| - 1 && maxStrain == points[w].y;
  }

  /** The control points of the strain curve and the updated maximum: the
      points frame the bucket peaks with (0, 0) and (bucket count, 0), their
      x coordinates increase, and the maximum only grows, to the largest
      peak seen. */
  method GenerateCurve(g: Graph) returns (points: seq<Vec2>, maxStrain: real)
    requires g.width != 0.0
    ensures |points| == Buckets(|g.strains|, SectSize(g)) + 2
    ensures points[0] == Vec2(0.0, 0.0)
    ensures points[|points| - 1] == Vec2((|points| - 2) as real, 0.0)
    ensures forall j :: 0 <= j < |points| - 2 ==>
              points[j + 1] == Vec2(j as real + 0.5, Peak(Bucket(g.strains, SectSize(g), j)))
    ensures |g.strains| > 0 ==> forall a, b :: 0 <= a < b < |points| ==> points[a].x < points[b].x
    ensures |g.strains| == 0 ==> points == [Vec2(0.0, 0.0), Vec2(0.0, 0.0)]
    ensures maxStrain >= g.maxStrain
    ensures forall j :: 1 <= j < |points| - 1 ==> points[j].y <= maxStrain
    ensures maxStrain == g.maxStrain || exists j :: 1 <= j < |points| - 1 && maxStrain == points[j].y
  {
    var s := SectSize(g);
    points, maxStrain := BucketPoints(g.strains, s, g.maxStrain);
    ShapeIncreasing(points, g.strains, s);
  }

  function Clamp01(x: real): real {
    if x < 0.0 then 0.0 else if x > 1.0 then 1.0 else x
  }

  /** Fraction of the map played at `time`, clamped into [0, 1]. */
  function Progress(startTime: real, endTime: real, time: real): (p: real)
    requires endTime != startTime
    ensures 0.0 <= p <= 1.0
    ensures 0.0 < p < 1.0 ==> p * (endTime - startTime) == time - startTime
  {
    Clamp01((time - startTime) / (endTime - startTime))
  }

  /** Records the progress; the left sprite is cut by the part still to
      come, the right one by the part played. */
  function Update(g: Graph, time: real): (r: Graph)
    requires g.endTime != g.startTime
    ensures r.strains == g.strains && r.maxStrain == g.maxStrain
    ensures r.startTime == g.startTime && r.endTime == g.endTime && r.width == g.width
    ensures r.progress == Progress(g.startTime, g.endTime, time)
    ensures 0.0 <= r.progress <= 1.0
    ensures r.leftCut + r.rightCut == 1.0 && r.rightCut == r.progress
  {
    var p := Progress(g.startTime, g.endTime, time);
    g.(progress := p, leftCut := 1.0 - p, rightCut := p)
  }

  /** For a map whose end follows its start, progress is 0 up to the start,
      1 from the end on, and never decreases as time goes on. */
  lemma ProgressMonotone(startTime: real, endTime: real, t1: real, t2: real)
    requires startTime < endTime
    requires t1 <= t2
    ensures Progress(startTime, endTime, t1) <= Progress(startTime, endTime, t2)
    ensures t1 <= startTime ==> Progress(startTime, endTime, t1) == 0.0
    ensures t2 >= endTime ==> Progress(startTime, endTime, t2) == 1.0
  {
    var d := endTime - startTime;
    var r1, r2 := (t1 - startTime) / d, (t2 - startTime) / d;
    DivMono(t1 - startTime, t2 - startTime, d);
    assert Progress(startTime, endTime, t1) == Clamp01(r1);
    assert Progress(startTime, endTime, t2) == Clamp01(r2);
    if t1 <= startTime {
      DivMono(t1 - startTime, 0.0, d);
    }
    if t2 >= endTime {
      DivMono(d, t2 - startTime, d);
      assert d / d == 1.0;
    }
  }

  lemma DivMono(a: real, b: real, d: real)
    requires d > 0.0 && a <= b
    ensures a / d <= b / d
  {
    assert b / d - a / d == (b - a) / d;
  }
}
