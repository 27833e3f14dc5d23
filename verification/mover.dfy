/** The Naitsirk cursor mover (app/dance/movers/naitsirk.go): walks a run of
    hit objects into the parallel point, velocity and delta-time arrays of a
    Naitsirk curve, stopping at the first long object after the first one. */
module NaitsirkMover {
  import opened Vectors
  import opened NaitsirkCurve

  /** A hit object as the mover sees it. Positions are the stacked,
      mod-adjusted ones; `isLong` marks sliders and spinners. */
  datatype HitObject = HitObject(startPos: Vec2, endPos: Vec2, startTime: real, endTime: real, isLong: bool)

  /** The velocity estimate `getVelocity(v0, x0, x1, dt)` is supplied from
      outside; its trigonometric constants are not modelled. */
  type VelocityRule = (Vec2, Vec2, Vec2, real) -> Vec2

  datatype Mover = Mover(startTime: real, endTime: real, curve: Naitsirk)

  /** Index at which the loop of SetObjects, having reached index i >= 1,
      stops: the first long object before the last index, else the last index. */
  function ExitFrom(objs: seq<HitObject>, i: nat): (k: nat)
    requires 1 <= i
    requires |objs| >= 2
    ensures i <= k || k == |objs| - 1
    ensures k <= |objs| - 1
    decreases |objs| - i
  {
    if i >= |objs| - 1 then |objs| - 1
    else if objs[i].isLong then i
    else ExitFrom(objs, i + 1)
  }

  /** Index at which the loop of SetObjects stops. */
  function LoopExit(objs: seq<HitObject>): nat
    requires |objs| >= 1
  {
    if |objs| == 1 then 0 else ExitFrom(objs, 1)
  }

  /** The loop stopped early on a long object. */
  predicate Truncated(objs: seq<HitObject>)
    requires |objs| >= 1
  {
    LoopExit(objs) < |objs| - 1
  }

  /** The point stored for object j: the first object contributes its end
      position, every later one its start position. */
  function PointOf(objs: seq<HitObject>, j: nat): Vec2
    requires j < |objs|
  {
    if j == 0 then objs[0].endPos else objs[j].startPos
  }

  /** The velocity stored for object j >= 1 when it does not truncate: its
      start position plus the estimate from the previous velocity, the end
      of the object before and the start of the object after. */
  function VelocityOf(objs: seq<HitObject>, getVelocity: VelocityRule, prev: Vec2, j: nat): Vec2
    requires 1 <= j < |objs| - 1
  {
    objs[j].startPos.Add(getVelocity(prev, objs[j - 1].endPos, objs[j + 1].startPos,
                                     objs[j + 1].startTime - objs[j - 1].endTime))
  }

  /** Builds the mover's curve from `objs` and returns how many objects it
      consumed. Object 0 contributes its end position; each later object
      before the last contributes its start position, and the first long
      one among them ends the curve with zero relative velocity. */
  method SetObjects(m: Mover, objs: seq<HitObject>, getVelocity: VelocityRule) returns (m': Mover, consumed: nat)
    requires |objs| >= 1
    ensures consumed == LoopExit(objs) + 1
    ensures m'.startTime == objs[0].endTime
    ensures m'.endTime == (if |objs| == 1 then m.endTime
                           else if Truncated(objs) then objs[LoopExit(objs)].startTime
                           else objs[|objs| - 1].startTime)
    ensures |m'.curve.points| == |m'.curve.velocities|
    ensures |m'.curve.points| == if Truncated(objs) then LoopExit(objs) + 1 else |objs| - 1
    ensures |m'.curve.deltaTimes| == LoopExit(objs)
    ensures forall j :: 0 <= j < |m'.curve.points| ==> m'.curve.points[j] == PointOf(objs, j)
    ensures forall j :: 0 <= j < |m'.curve.deltaTimes| ==>
              m'.curve.deltaTimes[j] * 100.0 == objs[j + 1].startTime - objs[j].endTime
    ensures |m'.curve.points| > 0 ==> m'.curve.velocities[0] == objs[0].endPos
    ensures |m'.curve.points| > 0 ==> m'.curve.velocities[0].Sub(m'.curve.points[0]) == Zero
    ensures forall j :: 1 <= j < |m'.curve.velocities| && !(Truncated(objs) && j == LoopExit(objs)) ==>
              m'.curve.velocities[j] == VelocityOf(objs, getVelocity, m'.curve.velocities[j - 1], j)
    ensures Truncated(objs) ==>
              m'.curve.velocities[LoopExit(objs)].Sub(m'.curve.points[LoopExit(objs)]) == Zero
  {
    if |objs| == 1 {
      m' := Mover(objs[0].endTime, m.endTime, NewNaitsirk([], [], []));
      consumed := 1;
      return;
    }
    // Iteration 0: the first object's end position, as point and velocity.
    var points, velocities, deltaTimes := [objs[0].endPos], [objs[0].endPos], [objs[1].startTime - objs[0].endTime];
    var i := 1;
    while i < |objs| - 1 && !objs[i].isLong
      invariant 1 <= i <= |objs| - 1
      invariant forall j :: 1 <= j < i ==> !objs[j].isLong
      invariant Built(objs, getVelocity, points, velocities, deltaTimes, i)
    {
      points, velocities, deltaTimes := Step(objs, getVelocity, points, velocities, deltaTimes, i);
      i := i + 1;
    }
    ExitFromIs(objs, 1, i);
    if i < |objs| - 1 {
      // The long object ends the curve with its own start position.
      points := points + [objs[i].startPos];
      velocities := velocities + [objs[i].startPos];
    }
    m' := Mover(objs[0].endTime, objs[i].startTime, NewNaitsirk(points, velocities, deltaTimes));
    consumed := i + 1;
  }

  /** The arrays after iterations 0 .. i-1 of the loop. */
  predicate Built(objs: seq<HitObject>, getVelocity: VelocityRule,
                  points: seq<Vec2>, velocities: seq<Vec2>, deltaTimes: seq<real>, i: nat)
  {
    && 1 <= i < |objs|
    && |points| == i && |velocities| == i && |deltaTimes| == i
    && (forall j :: 0 <= j < i ==> points[j] == PointOf(objs, j))
    && (forall j :: 0 <= j < i ==> deltaTimes[j] == objs[j + 1].startTime - objs[j].endTime)
    && velocities[0] == objs[0].endPos
    && (forall j :: 1 <= j < i ==> velocities[j] == VelocityOf(objs, getVelocity, velocities[j - 1], j))
  }

  /** One iteration on a short object i >= 1: its start position, the
      velocity from the previous one, and the gap to the next object. */
  method Step(objs: seq<HitObject>, getVelocity: VelocityRule,
              points: seq<Vec2>, velocities: seq<Vec2>, deltaTimes: seq<real>, i: nat)
    returns (points': seq<Vec2>, velocities': seq<Vec2>, deltaTimes': seq<real>)
    requires Built(objs, getVelocity, points, velocities, deltaTimes, i) && i < |objs| - 1
    ensures Built(objs, getVelocity, points', velocities', deltaTimes', i + 1)
  {
    var prevVelocity := velocities[i - 1];
    var velChange := getVelocity(prevVelocity, objs[i - 1].endPos, objs[i + 1].startPos,
                                 objs[i + 1].startTime - objs[i - 1].endTime);
    points' := points + [objs[i].startPos];
    deltaTimes' := deltaTimes + [objs[i + 1].startTime - objs[i].endTime];
    velocities' := velocities + [objs[i].startPos.Add(velChange)];
  }

  /** The cursor position at an absolute time: the curve sampled at the
      time elapsed since the mover's start. */
  function Update(tr: Trig, m: Mover, time: real): (r: Sample)
    requires |m.curve.points| <= |m.curve.velocities|
    ensures time < m.startTime && NonNegative(m.curve.deltaTimes) ==> r == Defined(Fallback)
    ensures r.NotANumber? ==> exists k :: 0 <= k < |m.curve.deltaTimes| && m.curve.deltaTimes[k] == 0.0
  {
    if time < m.startTime && NonNegative(m.curve.deltaTimes) then
      PointAtNegativeTime(tr, m.curve, time - m.startTime);
      PointAt(tr, m.curve, time - m.startTime)
    else
      PointAt(tr, m.curve, time - m.startTime)
  }

  /** At its start time the mover is exactly at its first point (for the
      curves SetObjects builds, the end of the first object). */
  lemma UpdateAtStart(tr: Trig, m: Mover)
    requires ValidTrig(tr)
    requires 2 <= |m.curve.points| <= |m.curve.velocities|
    requires |m.curve.deltaTimes| >= 1 && m.curve.deltaTimes[0] > 0.0
    ensures Update(tr, m, m.startTime) == Defined(m.curve.points[0])
  {
    var c := m.curve;
    assert Scaled(m.startTime - m.startTime) == 0.0;
    assert InWindow(c, 0, Scaled(m.startTime - m.startTime));
    PointAtFirstWindow(tr, c, m.startTime - m.startTime, 0);
    SStartsAtX0(tr, c.points[0], c.points[1], c.velocities[0].Sub(c.points[0]),
                c.velocities[1].Sub(c.points[1]), c.deltaTimes[0]);
  }

  /** The loop stops at the first long object strictly between the first
      and the last index, and runs to the last index when there is none. */
  lemma {:induction false} ExitFromFirstLong(objs: seq<HitObject>, i: nat)
    requires |objs| >= 2
    requires 1 <= i <= |objs| - 1
    ensures forall j :: i <= j < ExitFrom(objs, i) ==> !objs[j].isLong
    ensures ExitFrom(objs, i) < |objs| - 1 ==> objs[ExitFrom(objs, i)].isLong
    decreases |objs| - i
  {
    if i < |objs| - 1 && !objs[i].isLong {
      ExitFromFirstLong(objs, i + 1);
    }
  }

  /** Conversely, the first long object found from i on is where the loop stops. */
  lemma {:induction false} ExitFromIs(objs: seq<HitObject>, i: nat, k: nat)
    requires |objs| >= 2
    requires 1 <= i <= k <= |objs| - 1
    requires forall j :: i <= j < k ==> !objs[j].isLong
    requires k == |objs| - 1 || objs[k].isLong
    ensures ExitFrom(objs, i) == k
    decreases k - i
  {
    if i < k {
      ExitFromIs(objs, i + 1, k);
    }
  }

  /** Truncation happens exactly when some object at an index from 1 to
      |objs|-2 is long, and then at the first of them; the first and the
      last object are never inspected. */
  lemma LoopExitIsFirstLong(objs: seq<HitObject>)
    requires |objs| >= 1
    ensures Truncated(objs) <==> exists j :: 1 <= j < |objs| - 1 && objs[j].isLong
    ensures Truncated(objs) ==> 1 <= LoopExit(objs) && objs[LoopExit(objs)].isLong
    ensures forall j :: 1 <= j < LoopExit(objs) ==> !objs[j].isLong
  {
    if |objs| >= 2 {
      ExitFromFirstLong(objs, 1);
    }
  }

  /** Whether the first object is long has no effect on where the loop stops. */
  lemma LoopExitIgnoresFirst(objs: seq<HitObject>, first: HitObject)
    requires |objs| >= 1
    ensures LoopExit(objs[0 := first]) == LoopExit(objs)
  {
    var objs' := objs[0 := first];
    if |objs| >= 2 {
      ExitFromFirstLong(objs, 1);
      ExitFromIs(objs', 1, ExitFrom(objs, 1));
    }
  }
}
