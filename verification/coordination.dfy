/** The coordination strain skill of the osu! difficulty calculator
    (app/rulesets/osu/performance/skills/coordination.go): how long the
    cursor dwells inside the current circle, entering from the previous
    object and leaving towards the next, turned into a strain together with
    an aim term. The root finder and the quadrature are external libraries
    and enter the model as function parameters. */
module Coordination {
  import opened Vectors
  import opened Wrappers
  import opened NaitsirkCurve

  /** A preprocessed difficulty object: positions normalised by the circle
      radius, times in milliseconds, and its strain time. */
  datatype DiffObject = DiffObject(isSpinner: bool, normStart: Vec2, normEnd: Vec2,
                                   startTime: real, endTime: real, strainTime: real)

  /** The skill's tuning constants and the 50-hit window of the beatmap. */
  datatype Skill = Skill(skillMultiplier: real, strainDecayBase: real, historyLength: nat, hit50: real)

  /** The skill's view of the map around the current object: `previous`
      holds the history, most recent first; `upcoming` the objects after. */
  datatype Window = Window(current: DiffObject, previous: seq<DiffObject>, upcoming: seq<DiffObject>)

  /** Strains may be infinite: a zero dwell time divides 2 by 0. */
  datatype XReal = Fin(v: real) | PosInf

  function Plus(a: XReal, b: real): (r: XReal)
    ensures r.PosInf? <==> a.PosInf?
    ensures a.Fin? ==> r.v - a.v == b
  {
    match a
    case PosInf => PosInf
    case Fin(x) => Fin(x + b)
  }

  /** The call `Brent(f, 0, hi, 3)` on the distance-to-circle residual of a
      crossing, abstracted as a function of the crossing and `hi`. */
  datatype Crossing = Crossing(x0: DiffObject, x1: DiffObject, x2: DiffObject, target: DiffObject, start: bool)
  type RootFinder = (Crossing, real) -> real

  /** The four objects whose cursor path the aim integral follows, and the
      fixed 50-point quadrature of its speed over [0, strainTime]. */
  datatype AimSpan = AimSpan(prev: DiffObject, from: DiffObject, to: DiffObject, next: DiffObject)
  type Quadrature = AimSpan -> real

  function NewCoordinationSkill(hit50: real): (s: Skill)
    ensures s.skillMultiplier == 23.25 && s.strainDecayBase == 0.1 && s.historyLength == 2
    ensures s.hit50 == hit50
  {
    Skill(23.25, 0.1, 2, hit50)
  }

  function GetPrevious(w: Window, i: nat): (r: Option<DiffObject>)
    ensures r.Some? <==> i < |w.previous|
    ensures r.Some? ==> r.value == w.previous[i]
  {
    if i < |w.previous| then Some(w.previous[i]) else None
  }

  function GetNext(w: Window, i: nat): (r: Option<DiffObject>)
    ensures r.Some? <==> i < |w.upcoming|
    ensures r.Some? ==> r.value == w.upcoming[i]
  {
    if i < |w.upcoming| then Some(w.upcoming[i]) else None
  }

  /** Squared distance between two normalised positions; at most 1 means
      the two circles overlap by half or more. */
  function SquaredDistance(a: Vec2, b: Vec2): real {
    var d := a.Sub(b);
    d.Dot(d)
  }

  predicate Overlaps(a: Vec2, b: Vec2) {
    SquaredDistance(a, b) <= 1.0
  }

  /** Time spent inside the current circle while arriving from the previous
      object. */
  function EntryTime(sk: Skill, w: Window, brent: RootFinder): (r: real)
    ensures |w.previous| == 0 || |w.upcoming| == 0 ==> r == sk.hit50
    ensures |w.previous| > 0 && |w.upcoming| > 0 && Overlaps(w.current.normStart, w.previous[0].normEnd) ==>
              r == w.current.strainTime
    ensures Bracketed(brent) && w.current.strainTime >= 0.0 && |w.previous| > 0 && |w.upcoming| > 0 ==>
              0.0 <= r <= w.current.strainTime
  {
    var curr := w.current;
    match (GetPrevious(w, 0), GetNext(w, 0))
    case (Some(last), Some(next)) =>
      if Overlaps(curr.normStart, last.normEnd) then curr.strainTime
      else curr.strainTime - brent(Crossing(last, curr, next, curr, true), curr.strainTime)
    case _ => sk.hit50
  }

  /** Time spent inside the current circle while leaving towards the next. */
  function ExitTime(sk: Skill, w: Window, brent: RootFinder): (r: real)
    ensures |w.upcoming| <= 1 ==> r == sk.hit50
    ensures |w.upcoming| > 1 && Overlaps(w.upcoming[0].normStart, w.current.normEnd) ==>
              r == w.upcoming[0].strainTime
    ensures Bracketed(brent) && |w.upcoming| > 1 && w.upcoming[0].strainTime >= 0.0 ==>
              0.0 <= r <= w.upcoming[0].strainTime
  {
    var curr := w.current;
    match (GetNext(w, 1), GetNext(w, 0))
    case (Some(nextNext), Some(next)) =>
      if Overlaps(next.normStart, curr.normEnd) then next.strainTime
      else brent(Crossing(curr, next, nextNext, curr, false), next.strainTime)
    case _ => sk.hit50
  }

  /** Total dwell time: entry plus exit. */
  function TimeInNote(sk: Skill, w: Window, brent: RootFinder): (r: real)
    ensures |w.upcoming| == 0 ==> r == 2.0 * sk.hit50
    ensures |w.upcoming| == 1 ==> r == EntryTime(sk, w, brent) + sk.hit50
  {
    EntryTime(sk, w, brent) + ExitTime(sk, w, brent)
  }

  /** Two divided by the dwell time; a zero dwell time gives +Inf as in
      IEEE arithmetic. */
  function CoordinationDifficulty(sk: Skill, w: Window, brent: RootFinder): (r: XReal)
    ensures r.PosInf? <==> TimeInNote(sk, w, brent) == 0.0
    ensures r.Fin? ==> r.v * TimeInNote(sk, w, brent) == 2.0
  {
    var t := TimeInNote(sk, w, brent);
    if t == 0.0 then PosInf else Fin(2.0 / t)
  }

  /** The aim term: the integrated cursor speed over the current object's
      strain time, per unit time. */
  function AimDifficulty(w: Window, quad: Quadrature): (r: real)
    requires w.current.strainTime != 0.0
    ensures GetPrevious(w, 0).None? || GetNext(w, 0).None? ==> r == 0.0
    ensures GetPrevious(w, 0).Some? && GetNext(w, 0).Some? ==>
              r * w.current.strainTime
              == quad(AimSpan(if |w.previous| >= 2 then w.previous[1] else w.previous[0],
                              w.previous[0], w.current, w.upcoming[0]))
  {
    match (GetPrevious(w, 0), GetNext(w, 0))
    case (Some(from), Some(next)) =>
      var prev := match GetPrevious(w, 1) case Some(p) => p case None => from;
      quad(AimSpan(prev, from, w.current, next)) / w.current.strainTime
    case _ => 0.0
  }

  /** Strain of the current object. */
  function StrainValue(sk: Skill, w: Window, brent: RootFinder, quad: Quadrature): (r: XReal)
    requires w.current.strainTime != 0.0
    ensures w.current.isSpinner || |w.previous| <= 1 || w.previous[0].isSpinner ==> r == Fin(0.0)
  {
    if w.current.isSpinner || |w.previous| <= 1 then Fin(0.0)
    else if w.previous[0].isSpinner then Fin(0.0)
    else Plus(CoordinationDifficulty(sk, w, brent), AimDifficulty(w, quad))
  }

  /** Outside the zero-strain guards the strain is the coordination term
      plus the aim term, and the aim term always sees the real object two
      back: the substitution of a missing one never happens here. */
  lemma StrainIsSum(sk: Skill, w: Window, brent: RootFinder, quad: Quadrature)
    requires w.current.strainTime != 0.0
    requires !w.current.isSpinner && |w.previous| >= 2 && !w.previous[0].isSpinner
    ensures StrainValue(sk, w, brent, quad).PosInf? <==> TimeInNote(sk, w, brent) == 0.0
    ensures TimeInNote(sk, w, brent) != 0.0 && |w.upcoming| >= 1 ==>
              StrainValue(sk, w, brent, quad).v * TimeInNote(sk, w, brent)
              == 2.0 + TimeInNote(sk, w, brent)
                       * (quad(AimSpan(w.previous[1], w.previous[0], w.current, w.upcoming[0]))
                          / w.current.strainTime)
    ensures TimeInNote(sk, w, brent) != 0.0 && |w.upcoming| == 0 ==>
              StrainValue(sk, w, brent, quad).v * TimeInNote(sk, w, brent) == 2.0
  {
    var t := TimeInNote(sk, w, brent);
    var c := CoordinationDifficulty(sk, w, brent);
    var a := AimDifficulty(w, quad);
    if t != 0.0 {
      assert (c.v + a) * t == c.v * t + t * a;
    }
  }

  /** With a missing neighbour or overlapping circles the root finder is
      never consulted: any two root finders give the same dwell time. */
  lemma EntryIgnoresRootFinder(sk: Skill, w: Window, b1: RootFinder, b2: RootFinder)
    requires |w.previous| == 0 || |w.upcoming| == 0 || Overlaps(w.current.normStart, w.previous[0].normEnd)
    ensures EntryTime(sk, w, b1) == EntryTime(sk, w, b2)
    ensures |w.previous| == 0 || |w.upcoming| == 0 ==> EntryTime(sk, w, b1) == sk.hit50
    ensures |w.previous| > 0 && |w.upcoming| > 0 ==> EntryTime(sk, w, b1) == w.current.strainTime
  {
  }

  lemma ExitIgnoresRootFinder(sk: Skill, w: Window, b1: RootFinder, b2: RootFinder)
    requires |w.upcoming| <= 1 || Overlaps(w.upcoming[0].normStart, w.current.normEnd)
    ensures ExitTime(sk, w, b1) == ExitTime(sk, w, b2)
    ensures |w.upcoming| <= 1 ==> ExitTime(sk, w, b1) == sk.hit50
    ensures |w.upcoming| > 1 ==> ExitTime(sk, w, b1) == w.upcoming[0].strainTime
  {
  }

  /** The root finder keeps to the bracket it is given. */
  ghost predicate Bracketed(brent: RootFinder) {
    forall c: Crossing, hi: real :: 0.0 <= hi ==> 0.0 <= brent(c, hi) <= hi
  }

  /** With a bracketed root finder and non-negative strain times, the
      dwell time is non-negative and bounded by the strain times (or the
      50-hit window where a neighbour is missing). */
  lemma TimeInNoteBounds(sk: Skill, w: Window, brent: RootFinder)
    requires Bracketed(brent)
    requires sk.hit50 >= 0.0 && w.current.strainTime >= 0.0
    requires |w.upcoming| > 0 ==> w.upcoming[0].strainTime >= 0.0
    ensures 0.0 <= EntryTime(sk, w, brent)
              <= if |w.previous| > 0 && |w.upcoming| > 0 then w.current.strainTime else sk.hit50
    ensures 0.0 <= ExitTime(sk, w, brent)
              <= if |w.upcoming| > 1 then w.upcoming[0].strainTime else sk.hit50
    ensures TimeInNote(sk, w, brent) >= 0.0
  {
    if |w.previous| > 0 && |w.upcoming| > 0 {
      var c := Crossing(w.previous[0], w.current, w.upcoming[0], w.current, true);
      assert 0.0 <= brent(c, w.current.strainTime) <= w.current.strainTime;
    }
    if |w.upcoming| > 1 {
      var c := Crossing(w.current, w.upcoming[0], w.upcoming[1], w.current, false);
      assert 0.0 <= brent(c, w.upcoming[0].strainTime) <= w.upcoming[0].strainTime;
    }
  }

  /** A positive dwell time gives a finite, positive coordination term. */
  lemma CoordinationPositive(sk: Skill, w: Window, brent: RootFinder)
    requires TimeInNote(sk, w, brent) > 0.0
    ensures CoordinationDifficulty(sk, w, brent).Fin?
    ensures CoordinationDifficulty(sk, w, brent).v > 0.0
  {
  }

  /** The start velocity positionAt hands to the segment formula: the end
      position minus itself. */
  function StartVelocity(x0: DiffObject): (v: Vec2)
    ensures v == Zero
  {
    x0.normEnd.Sub(x0.normEnd)
  }

  /** The end velocity: the chord from x0's end to x2's start per unit of
      the time between them. */
  function EndVelocity(x0: DiffObject, x1: DiffObject, x2: DiffObject): Vec2
    requires x2.startTime - x0.endTime != 0.0
  {
    x1.normStart.Add(x2.normStart.Sub(x0.normEnd).Scl(1.0 / (x2.startTime - x0.endTime))).Sub(x1.normStart)
  }

  /** The cursor path from x0's end to x1's start, over x1's strain time. */
  function PositionAt(tr: Trig, x0: DiffObject, x1: DiffObject, x2: DiffObject, t: real): (p: Vec2)
    requires x1.strainTime != 0.0 && x2.startTime - x0.endTime != 0.0
    ensures ValidTrig(tr) && t == 0.0 ==> p == x0.normEnd
    ensures ValidTrig(tr) && t == x1.strainTime ==> p == x1.normStart
  {
    S(tr, x0.normEnd, x1.normStart, StartVelocity(x0), EndVelocity(x0, x1, x2), x1.strainTime, t)
  }

  /** The path leaves x0's end at time 0 and reaches x1's start at x1's
      strain time. */
  lemma PositionAtEnds(tr: Trig, x0: DiffObject, x1: DiffObject, x2: DiffObject)
    requires ValidTrig(tr)
    requires x1.strainTime != 0.0 && x2.startTime - x0.endTime != 0.0
    ensures PositionAt(tr, x0, x1, x2, 0.0) == x0.normEnd
    ensures PositionAt(tr, x0, x1, x2, x1.strainTime) == x1.normStart
  {
    SStartsAtX0(tr, x0.normEnd, x1.normStart, StartVelocity(x0), EndVelocity(x0, x1, x2), x1.strainTime);
    SEndsAtX1(tr, x0.normEnd, x1.normStart, StartVelocity(x0), EndVelocity(x0, x1, x2), x1.strainTime);
  }

  /** The function whose root Brent's method seeks: squared distance from
      the path to the target circle's centre, minus the squared radius 1. */
  function Residual(tr: Trig, c: Crossing, t: real): real
    requires c.x1.strainTime != 0.0 && c.x2.startTime - c.x0.endTime != 0.0
  {
    var position := if c.start then c.target.normStart else c.target.normEnd;
    SquaredDistance(PositionAt(tr, c.x0, c.x1, c.x2, t), position) - 1.0
  }

  lemma SquaredDistanceSymmetric(a: Vec2, b: Vec2)
    ensures SquaredDistance(a, b) == SquaredDistance(b, a)
  {
    var d, e := a.Sub(b), b.Sub(a);
    assert e.x * e.x == d.x * d.x;
    assert e.y * e.y == d.y * d.y;
  }

  /** When the circles do not overlap, the entry residual changes sign over
      [0, strainTime]: the cursor starts outside the current circle and
      ends at its centre. The root finder is thus called on a proper bracket. */
  lemma EntryBracketChangesSign(tr: Trig, last: DiffObject, curr: DiffObject, next: DiffObject)
    requires ValidTrig(tr)
    requires curr.strainTime != 0.0 && next.startTime - last.endTime != 0.0
    requires !Overlaps(curr.normStart, last.normEnd)
    ensures Residual(tr, Crossing(last, curr, next, curr, true), 0.0) > 0.0
    ensures Residual(tr, Crossing(last, curr, next, curr, true), curr.strainTime) == -1.0
  {
    PositionAtEnds(tr, last, curr, next);
    SquaredDistanceSymmetric(curr.normStart, last.normEnd);
  }

  /** Likewise on exit: the cursor starts at the current circle's centre
      and ends outside it at the next object. */
  lemma ExitBracketChangesSign(tr: Trig, curr: DiffObject, next: DiffObject, nextNext: DiffObject)
    requires ValidTrig(tr)
    requires next.strainTime != 0.0 && nextNext.startTime - curr.endTime != 0.0
    requires !Overlaps(next.normStart, curr.normEnd)
    ensures Residual(tr, Crossing(curr, next, nextNext, curr, false), 0.0) == -1.0
    ensures Residual(tr, Crossing(curr, next, nextNext, curr, false), next.strainTime) > 0.0
  {
    PositionAtEnds(tr, curr, next, nextNext);
  }
}
