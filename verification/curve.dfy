/** The piecewise "Naitsirk" curve (framework/math/curves/naitsirk.go):
    a chain of closed-form segments, each blending a quadratic, a cosine,
    a linear and a constant term so that it leaves one point and reaches
    the next exactly at the ends of its time window. */
module NaitsirkCurve {
  import opened Vectors

  /** The trigonometry the curve needs, supplied from outside: a cosine and
      the constant pi. Nothing is assumed of them except what ValidTrig says. */
  datatype Trig = Trig(pi: real, cos: real -> real)

  predicate ValidTrig(tr: Trig) {
    tr.cos(0.0) == 1.0 && tr.cos(tr.pi) == -1.0
  }

  /** Points, the absolute velocity targets attached to them, and the
      durations (already divided by 100) of the windows between them. */
  datatype Naitsirk = Naitsirk(points: seq<Vec2>, velocities: seq<Vec2>, deltaTimes: seq<real>)

  /** A sample of the curve. A window of length zero makes the segment
      formula divide 0 by 0, which yields NaN coordinates in the source. */
  datatype Sample = Defined(pos: Vec2) | NotANumber

  /** Position returned when no segment window contains the time. */
  const Fallback: Vec2 := Vec2(100.0, 100.0)

  function Min(a: int, b: int): int {
    if a <= b then a else b
  }

  /** Builds a curve; delta times are stored in hundreds of milliseconds. */
  function NewNaitsirk(points: seq<Vec2>, velocities: seq<Vec2>, deltaTimes: seq<real>): (c: Naitsirk)
    ensures c.points == points && c.velocities == velocities
    ensures |c.deltaTimes| == |deltaTimes|
    ensures forall i :: 0 <= i < |deltaTimes| ==> c.deltaTimes[i] * 100.0 == deltaTimes[i]
  {
    Naitsirk(points, velocities, seq(|deltaTimes|, i requires 0 <= i < |deltaTimes| => deltaTimes[i] / 100.0))
  }

  /** One coordinate of a segment, with the cosine factor c given as a value:
      a quadratic term from v1 - v0, minus a cosine-weighted term, a linear
      term from v0, minus a constant velocity term, plus the midpoint. */
  function SComponent(a0: real, a1: real, b0: real, b1: real, dt: real, t: real, c: real): real
    requires dt != 0.0
  {
    (b1 - b0) * (t * t / (2.0 * dt)) - ((a1 - a0) * 0.5 - (b0 + b1) * (0.25 * dt)) * c
    + b0 * t - (b0 + b1) * (0.25 * dt) + (a0 + a1) * 0.5
  }

  /** The cosine's argument: pi times the fraction of the window elapsed. */
  function Phase(tr: Trig, t: real, dt: real): real
    requires dt != 0.0
  {
    tr.pi * t / dt
  }

  /** One segment at local time t of a window of length dt. The velocities
      v0 and v1 are relative to the end points. The vector formula of the
      source acts coordinate by coordinate, which is how it is written here. */
  function S(tr: Trig, x0: Vec2, x1: Vec2, v0: Vec2, v1: Vec2, dt: real, t: real): (p: Vec2)
    requires dt != 0.0
    ensures t == 0.0 && tr.cos(0.0) == 1.0 ==> p == x0
    ensures t == dt && tr.cos(tr.pi) == -1.0 ==> p == x1
  {
    var c := tr.cos(Phase(tr, t, dt));
    PiOverPi(tr, dt);
    ComponentStart(x0.x, x1.x, v0.x, v1.x, dt);
    ComponentStart(x0.y, x1.y, v0.y, v1.y, dt);
    ComponentEnd(x0.x, x1.x, v0.x, v1.x, dt, t, c);
    ComponentEnd(x0.y, x1.y, v0.y, v1.y, dt, t, c);
    Vec2(SComponent(x0.x, x1.x, v0.x, v1.x, dt, t, c), SComponent(x0.y, x1.y, v0.y, v1.y, dt, t, c))
  }

  /** The cosine argument at the end of a window is exactly pi. */
  lemma PiOverPi(tr: Trig, dt: real)
    requires dt != 0.0
    ensures Phase(tr, dt, dt) == tr.pi
  {
    MulDivCancel(tr.pi, dt);
  }

  lemma MulDivCancel(a: real, b: real)
    requires b != 0.0
    ensures a * b / b == a
  {
  }

  lemma ComponentStart(a0: real, a1: real, b0: real, b1: real, dt: real)
    requires dt != 0.0
    ensures SComponent(a0, a1, b0, b1, dt, 0.0, 1.0) == a0
  {
    assert 0.0 * 0.0 / (2.0 * dt) == 0.0;
  }

  lemma ComponentEnd(a0: real, a1: real, b0: real, b1: real, dt: real, t: real, c: real)
    requires dt != 0.0
    ensures t == dt && c == -1.0 ==> SComponent(a0, a1, b0, b1, dt, t, c) == a1
  {
    if t == dt && c == -1.0 {
      var half := dt / 2.0;
      assert dt * dt == half * (2.0 * dt);
      MulDivCancel(half, 2.0 * dt);
      assert dt * dt / (2.0 * dt) == half;
      EndIdentity(a0, a1, b0, b1, dt);
    }
  }

  /** The end-point identity of S, one coordinate at a time. */
  lemma EndIdentity(a0: real, a1: real, b0: real, b1: real, dt: real)
    ensures (b1 - b0) * (dt / 2.0) - ((a1 - a0) * 0.5 - (b0 + b1) * (0.25 * dt)) * -1.0
            + b0 * dt - (b0 + b1) * (0.25 * dt) + (a0 + a1) * 0.5 == a1
  {
  }

  /** A segment starts exactly at its first point, whatever the velocities. */
  lemma SStartsAtX0(tr: Trig, x0: Vec2, x1: Vec2, v0: Vec2, v1: Vec2, dt: real)
    requires dt != 0.0
    requires tr.cos(0.0) == 1.0
    ensures S(tr, x0, x1, v0, v1, dt, 0.0) == x0
  {
    assert Phase(tr, 0.0, dt) == 0.0;
    ComponentStart(x0.x, x1.x, v0.x, v1.x, dt);
    ComponentStart(x0.y, x1.y, v0.y, v1.y, dt);
  }

  /** A segment ends exactly at its second point, whatever the velocities. */
  lemma SEndsAtX1(tr: Trig, x0: Vec2, x1: Vec2, v0: Vec2, v1: Vec2, dt: real)
    requires dt != 0.0
    requires tr.cos(tr.pi) == -1.0
    ensures S(tr, x0, x1, v0, v1, dt, dt) == x1
  {
    var c := tr.cos(Phase(tr, dt, dt));
    PiOverPi(tr, dt);
    ComponentEnd(x0.x, x1.x, v0.x, v1.x, dt, dt, c);
    ComponentEnd(x0.y, x1.y, v0.y, v1.y, dt, dt, c);
  }

  /** Sum of the first i window lengths: the time at which window i opens. */
  function Elapsed(dts: seq<real>, i: nat): real
    requires i <= |dts|
  {
    if i == 0 then 0.0 else Elapsed(dts, i - 1) + dts[i - 1]
  }

  /** How many windows PointAt may look at: one per pair of consecutive
      points, and no more than there are delta times. */
  function Consulted(c: Naitsirk): nat {
    if |c.points| < 2 then 0 else Min(|c.deltaTimes|, |c.points| - 1)
  }

  /** Window i is closed at both ends. */
  predicate InWindow(c: Naitsirk, i: nat, tS: real)
    requires i < |c.deltaTimes|
  {
    Elapsed(c.deltaTimes, i) <= tS <= Elapsed(c.deltaTimes, i) + c.deltaTimes[i]
  }

  /** Segment i evaluated at local time `local`; the stored velocities are
      turned into velocities relative to their points. */
  function Segment(tr: Trig, c: Naitsirk, i: nat, local: real): Sample
    requires i + 1 < |c.points| && i + 1 < |c.velocities| && i < |c.deltaTimes|
  {
    var dt := c.deltaTimes[i];
    if dt == 0.0 then NotANumber
    else Defined(S(tr, c.points[i], c.points[i + 1],
                   c.velocities[i].Sub(c.points[i]), c.velocities[i + 1].Sub(c.points[i + 1]),
                   dt, local))
  }

  /** The linear scan of PointAt from window i on, `elapsed` being the
      opening time of window i. */
  function Scan(tr: Trig, c: Naitsirk, tS: real, i: nat, elapsed: real): (r: Sample)
    requires |c.points| <= |c.velocities|
    requires i <= |c.deltaTimes|
    ensures r.NotANumber? ==> exists k :: i <= k < Consulted(c) && c.deltaTimes[k] == 0.0
    ensures r.Defined? && r.pos != Fallback ==> i < Consulted(c)
    decreases |c.deltaTimes| - i
  {
    if i == |c.deltaTimes| || |c.points| < 2 || i >= |c.points| - 1 then Defined(Fallback)
    else if elapsed <= tS <= elapsed + c.deltaTimes[i] then Segment(tr, c, i, tS - elapsed)
    else Scan(tr, c, tS, i + 1, elapsed + c.deltaTimes[i])
  }

  /** Curve time: the scan works in hundreds of milliseconds. */
  function Scaled(t: real): real {
    t / 100.0
  }

  /** Position at time t (milliseconds since the curve's start). */
  function PointAt(tr: Trig, c: Naitsirk, t: real): (r: Sample)
    requires |c.points| <= |c.velocities|
    ensures r.NotANumber? ==> exists k :: 0 <= k < Consulted(c) && c.deltaTimes[k] == 0.0
    ensures |c.points| < 2 ==> r == Defined(Fallback)
  {
    Scan(tr, c, Scaled(t), 0, 0.0)
  }

  lemma {:induction false} ScanFirstWindow(tr: Trig, c: Naitsirk, tS: real, i: nat, k: nat)
    requires |c.points| <= |c.velocities|
    requires i <= k < Consulted(c)
    requires InWindow(c, k, tS)
    requires forall j :: i <= j < k ==> !InWindow(c, j, tS)
    ensures Scan(tr, c, tS, i, Elapsed(c.deltaTimes, i)) == Segment(tr, c, k, tS - Elapsed(c.deltaTimes, k))
    decreases k - i
  {
    if i < k {
      assert !InWindow(c, i, tS);
      ScanFirstWindow(tr, c, tS, i + 1, k);
    }
  }

  lemma {:induction false} ScanNoWindow(tr: Trig, c: Naitsirk, tS: real, i: nat)
    requires |c.points| <= |c.velocities|
    requires i <= |c.deltaTimes|
    requires forall j :: i <= j < Consulted(c) ==> !InWindow(c, j, tS)
    ensures Scan(tr, c, tS, i, Elapsed(c.deltaTimes, i)) == Defined(Fallback)
    decreases |c.deltaTimes| - i
  {
    if i < |c.deltaTimes| && |c.points| >= 2 && i < |c.points| - 1 {
      assert !InWindow(c, i, tS);
      ScanNoWindow(tr, c, tS, i + 1);
    }
  }

  /** PointAt evaluates the first consulted window that contains the time,
      so at a boundary shared by two windows the earlier one wins. */
  lemma PointAtFirstWindow(tr: Trig, c: Naitsirk, t: real, k: nat)
    requires |c.points| <= |c.velocities|
    requires k < Consulted(c)
    requires InWindow(c, k, Scaled(t))
    requires forall j :: 0 <= j < k ==> !InWindow(c, j, Scaled(t))
    ensures PointAt(tr, c, t) == Segment(tr, c, k, Scaled(t) - Elapsed(c.deltaTimes, k))
  {
    ScanFirstWindow(tr, c, Scaled(t), 0, k);
  }

  /** When no consulted window contains the time, PointAt returns the fallback. */
  lemma PointAtNoWindow(tr: Trig, c: Naitsirk, t: real)
    requires |c.points| <= |c.velocities|
    requires forall j :: 0 <= j < Consulted(c) ==> !InWindow(c, j, Scaled(t))
    ensures PointAt(tr, c, t) == Defined(Fallback)
  {
    ScanNoWindow(tr, c, Scaled(t), 0);
  }

  /** Fewer than two points: every time gives the fallback. */
  lemma PointAtFewPoints(tr: Trig, c: Naitsirk, t: real)
    requires |c.points| <= |c.velocities|
    requires |c.points| < 2
    ensures PointAt(tr, c, t) == Defined(Fallback)
  {
    PointAtNoWindow(tr, c, t);
  }

  predicate NonNegative(dts: seq<real>) {
    forall i :: 0 <= i < |dts| ==> dts[i] >= 0.0
  }

  lemma {:induction false} ElapsedMonotone(dts: seq<real>, i: nat, j: nat)
    requires NonNegative(dts)
    requires i <= j <= |dts|
    ensures Elapsed(dts, i) <= Elapsed(dts, j)
    decreases j - i
  {
    if i < j {
      ElapsedMonotone(dts, i, j - 1);
    }
  }

  /** With non-negative windows, a negative time lies before every window. */
  lemma PointAtNegativeTime(tr: Trig, c: Naitsirk, t: real)
    requires |c.points| <= |c.velocities|
    requires NonNegative(c.deltaTimes)
    requires t < 0.0
    ensures PointAt(tr, c, t) == Defined(Fallback)
  {
    forall j | 0 <= j < Consulted(c)
      ensures !InWindow(c, j, Scaled(t))
    {
      ElapsedMonotone(c.deltaTimes, 0, j);
    }
    PointAtNoWindow(tr, c, t);
  }

  /** With non-negative windows, a time past the last consulted window
      gives the fallback. */
  lemma PointAtPastEnd(tr: Trig, c: Naitsirk, t: real)
    requires |c.points| <= |c.velocities|
    requires NonNegative(c.deltaTimes)
    requires Scaled(t) > Elapsed(c.deltaTimes, Consulted(c))
    ensures PointAt(tr, c, t) == Defined(Fallback)
  {
    forall j | 0 <= j < Consulted(c)
      ensures !InWindow(c, j, Scaled(t))
    {
      ElapsedMonotone(c.deltaTimes, j + 1, Consulted(c));
    }
    PointAtNoWindow(tr, c, t);
  }

  /** Two consecutive segments meet: segment i ends at point i+1 and
      segment i+1 starts there. */
  lemma SegmentsMeet(tr: Trig, c: Naitsirk, i: nat)
    requires ValidTrig(tr)
    requires i + 2 < |c.points| && i + 2 < |c.velocities| && i + 1 < |c.deltaTimes|
    requires c.deltaTimes[i] != 0.0 && c.deltaTimes[i + 1] != 0.0
    ensures Segment(tr, c, i, c.deltaTimes[i]) == Defined(c.points[i + 1])
    ensures Segment(tr, c, i + 1, 0.0) == Defined(c.points[i + 1])
  {
    var p, v := c.points, c.velocities;
    SEndsAtX1(tr, p[i], p[i + 1], v[i].Sub(p[i]), v[i + 1].Sub(p[i + 1]), c.deltaTimes[i]);
    SStartsAtX0(tr, p[i + 1], p[i + 2], v[i + 1].Sub(p[i + 1]), v[i + 2].Sub(p[i + 2]), c.deltaTimes[i + 1]);
  }

  /** With positive windows, sampling exactly at the boundary between
      windows k and k+1 returns point k+1: the end of segment k. */
  lemma PointAtBoundary(tr: Trig, c: Naitsirk, t: real, k: nat)
    requires ValidTrig(tr)
    requires |c.points| <= |c.velocities|
    requires k < Consulted(c)
    requires forall j :: 0 <= j < |c.deltaTimes| ==> c.deltaTimes[j] > 0.0
    requires Scaled(t) == Elapsed(c.deltaTimes, k + 1)
    ensures PointAt(tr, c, t) == Defined(c.points[k + 1])
  {
    var dts := c.deltaTimes;
    assert NonNegative(dts);
    forall j | 0 <= j < k
      ensures !InWindow(c, j, Scaled(t))
    {
      ElapsedMonotone(dts, j + 1, k);
    }
    PointAtFirstWindow(tr, c, t, k);
    var p, v := c.points, c.velocities;
    SEndsAtX1(tr, p[k], p[k + 1], v[k].Sub(p[k]), v[k + 1].Sub(p[k + 1]), dts[k]);
  }

  lemma {:induction false} ScanIgnoresExtra(tr: Trig, c: Naitsirk, d: Naitsirk, tS: real, i: nat, e: real)
    requires |c.points| <= |c.velocities|
    requires d.points == c.points && d.velocities == c.velocities
    requires |c.points| >= 1 && |c.deltaTimes| == |c.points| - 1
    requires |d.deltaTimes| >= |c.deltaTimes| && d.deltaTimes[..|c.deltaTimes|] == c.deltaTimes
    requires i <= |c.deltaTimes|
    ensures Scan(tr, d, tS, i, e) == Scan(tr, c, tS, i, e)
    decreases |c.deltaTimes| - i
  {
    if i < |c.deltaTimes| {
      assert d.deltaTimes[i] == c.deltaTimes[i];
      ScanIgnoresExtra(tr, c, d, tS, i + 1, e + c.deltaTimes[i]);
    }
  }

  /** Only the first len(points)-1 delta times are ever consulted: appending
      more changes no sample. */
  lemma ExtraDeltaTimesIgnored(tr: Trig, c: Naitsirk, extra: seq<real>, t: real)
    requires |c.points| <= |c.velocities|
    requires |c.points| >= 1 && |c.deltaTimes| == |c.points| - 1
    ensures PointAt(tr, c.(deltaTimes := c.deltaTimes + extra), t) == PointAt(tr, c, t)
  {
    var d := c.(deltaTimes := c.deltaTimes + extra);
    assert d.deltaTimes[..|c.deltaTimes|] == c.deltaTimes;
    ScanIgnoresExtra(tr, c, d, Scaled(t), 0, 0.0);
  }
}
