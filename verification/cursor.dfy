/** The cursor's position and button bookkeeping (app/graphics/cursor.go):
    with edge bouncing on, a position outside the playfield is mirrored
    back in, coordinate by coordinate, until it lies inside; pressing or
    releasing a button schedules a grow or shrink of the cursor. */
module Cursor {
  import opened Vectors
  import opened Wrappers

  /** The playfield rectangle in osu! coordinates. */
  datatype Rect = Rect(minX: real, maxX: real, minY: real, maxY: real)

  /** How the cursor's scale glider is told to change: grow from 1.0 to
      1.3, or shrink from its current value back to 1.0 (both over 100 ms). */
  datatype ScaleEvent = Grow | Shrink

  datatype CursorState = CursorState(position: Vec2,
                                     leftKey: bool, rightKey: bool, leftMouse: bool, rightMouse: bool,
                                     lastLeftState: bool, lastRightState: bool)

  predicate Inside(x: real, lo: real, hi: real) {
    lo <= x <= hi
  }

  /** One pass of the loop on one coordinate: mirror in the violated edge. */
  function Reflect(x: real, lo: real, hi: real): real {
    if x < lo then 2.0 * lo - x else if x > hi then 2.0 * hi - x else x
  }

  /** How far x lies outside [lo, hi]. */
  function Excess(x: real, lo: real, hi: real): (e: real)
    ensures e >= 0.0
    ensures e == 0.0 <==> Inside(x, lo, hi)
  {
    if x < lo then lo - x else if x > hi then x - hi else 0.0
  }

  /** Passes the loop still needs on one coordinate: every pass removes one
      width from the excess. */
  function Passes(x: real, lo: real, hi: real): nat
    requires lo < hi
  {
    if Inside(x, lo, hi) then 0
    else
      QuotientFacts(Excess(x, lo, hi), hi - lo);
      (Excess(x, lo, hi) / (hi - lo)).Floor + 1
  }

  lemma QuotientFacts(e: real, w: real)
    requires e >= 0.0 && w > 0.0
    ensures e / w >= 0.0
    ensures (e - w) / w == e / w - 1.0
  {
    assert (e - w) / w == e / w - w / w;
    assert w / w == 1.0;
  }

  lemma ReflectShrinks(x: real, lo: real, hi: real)
    requires lo < hi && !Inside(x, lo, hi)
    ensures Passes(Reflect(x, lo, hi), lo, hi) < Passes(x, lo, hi)
  {
    var w := hi - lo;
    var e := Excess(x, lo, hi);
    var y := Reflect(x, lo, hi);
    if !Inside(y, lo, hi) {
      assert Excess(y, lo, hi) == e - w;
      QuotientFacts(e, w);
    }
  }

  /** Mirroring until inside, on one coordinate. */
  function Fold(x: real, lo: real, hi: real): (r: real)
    requires lo < hi
    ensures Inside(r, lo, hi)
    ensures Inside(x, lo, hi) ==> r == x
    decreases Passes(x, lo, hi)
  {
    if Inside(x, lo, hi) then x
    else
      ReflectShrinks(x, lo, hi);
      Fold(Reflect(x, lo, hi), lo, hi)
  }

  /** k periods of twice the width. */
  function Period(k: int, lo: real, hi: real): real {
    2.0 * (k as real) * (hi - lo)
  }

  lemma PeriodStep(k: int, lo: real, hi: real)
    ensures Period(k + 1, lo, hi) == Period(k, lo, hi) + 2.0 * (hi - lo)
  {
  }

  /** r is x or its mirror image in lo, shifted by k periods: the images a
      chain of reflections in lo and hi can reach. */
  predicate MirrorImage(r: real, x: real, lo: real, hi: real, k: int) {
    r == x + Period(k, lo, hi) || r == 2.0 * lo - x + Period(k, lo, hi)
  }

  /** The folded coordinate is one of those images: reflection never
      changes x except by mirroring and whole periods. */
  lemma {:induction false} FoldIsMirrorImage(x: real, lo: real, hi: real)
    requires lo < hi
    ensures exists k :: MirrorImage(Fold(x, lo, hi), x, lo, hi, k)
    decreases Passes(x, lo, hi)
  {
    if Inside(x, lo, hi) {
      assert MirrorImage(Fold(x, lo, hi), x, lo, hi, 0);
    } else {
      var y := Reflect(x, lo, hi);
      ReflectShrinks(x, lo, hi);
      FoldIsMirrorImage(y, lo, hi);
      var k :| MirrorImage(Fold(y, lo, hi), y, lo, hi, k);
      var r := Fold(y, lo, hi);
      assert Fold(x, lo, hi) == r;
      if x < lo {
        assert MirrorImage(Fold(x, lo, hi), x, lo, hi, k);
      } else {
        assert y == 2.0 * lo - x + 2.0 * (hi - lo);
        PeriodStep(k, lo, hi);
        PeriodStep(k - 1, lo, hi);
        if r == y + Period(k, lo, hi) {
          assert MirrorImage(Fold(x, lo, hi), x, lo, hi, k + 1);
        } else {
          assert MirrorImage(Fold(x, lo, hi), x, lo, hi, k - 1);
        }
      }
    }
  }

  /** Folding an already folded coordinate changes nothing. */
  lemma FoldIdempotent(x: real, lo: real, hi: real)
    requires lo < hi
    ensures Fold(Fold(x, lo, hi), lo, hi) == Fold(x, lo, hi)
  {
  }

  /** With a zero-width range a point off the edge is mirrored back and
      forth between two images and is never inside: the loop does not
      terminate. */
  lemma ZeroWidthCycles(x: real, lo: real)
    requires x != lo
    ensures !Inside(Reflect(x, lo, lo), lo, lo)
    ensures Reflect(Reflect(x, lo, lo), lo, lo) == x
  {
  }

  predicate InRect(p: Vec2, r: Rect) {
    Inside(p.x, r.minX, r.maxX) && Inside(p.y, r.minY, r.maxY)
  }

  /** Stores a new position; with bouncing on (and at most two playfield
      divisions) the point is first mirrored into the playfield. */
  method SetPos(c: CursorState, pt: Vec2, rect: Rect, bounceOnEdges: bool, divides: int) returns (c': CursorState)
    requires bounceOnEdges && divides <= 2 ==> rect.minX < rect.maxX && rect.minY < rect.maxY
    ensures c' == c.(position := c'.position)
    ensures !(bounceOnEdges && divides <= 2) ==> c'.position == pt
    ensures bounceOnEdges && divides <= 2 ==> InRect(c'.position, rect)
    ensures bounceOnEdges && divides <= 2 ==>
              c'.position == Vec2(Fold(pt.x, rect.minX, rect.maxX), Fold(pt.y, rect.minY, rect.maxY))
    ensures InRect(pt, rect) ==> c'.position == pt
  {
    var tmp := pt;
    if bounceOnEdges && divides <= 2 {
      while true
        invariant Fold(tmp.x, rect.minX, rect.maxX) == Fold(pt.x, rect.minX, rect.maxX)
        invariant Fold(tmp.y, rect.minY, rect.maxY) == Fold(pt.y, rect.minY, rect.maxY)
        invariant InRect(pt, rect) ==> tmp == pt
        decreases Passes(tmp.x, rect.minX, rect.maxX) + Passes(tmp.y, rect.minY, rect.maxY)
      {
        var ok1, ok2 := false, false;
        var x, y := tmp.x, tmp.y;
        if x < rect.minX {
          x := 2.0 * rect.minX - x;
        } else if x > rect.maxX {
          x := 2.0 * rect.maxX - x;
        } else {
          ok1 := true;
        }
        if y < rect.minY {
          y := 2.0 * rect.minY - y;
        } else if y > rect.maxY {
          y := 2.0 * rect.maxY - y;
        } else {
          ok2 := true;
        }
        if !ok1 {
          ReflectShrinks(tmp.x, rect.minX, rect.maxX);
        }
        if !ok2 {
          ReflectShrinks(tmp.y, rect.minY, rect.maxY);
        }
        tmp := Vec2(x, y);
        if ok1 && ok2 {
          break;
        }
      }
    }
    c' := c.(position := tmp);
  }

  /** Tracks the pressed state of the two buttons (key or mouse). On a
      change the scale glider gets a grow event if some button is now down
      and a shrink event otherwise, and the new state is remembered. */
  function UpdateButtons(c: CursorState): (r: (CursorState, Option<ScaleEvent>))
    ensures r.0 == c.(lastLeftState := r.0.lastLeftState, lastRightState := r.0.lastRightState)
    ensures r.0.lastLeftState == (c.leftKey || c.leftMouse)
    ensures r.0.lastRightState == (c.rightKey || c.rightMouse)
    ensures r.1.Some? <==> (c.lastLeftState, c.lastRightState) != (r.0.lastLeftState, r.0.lastRightState)
    ensures r.1 == Some(Grow) <==> r.1.Some? && (r.0.lastLeftState || r.0.lastRightState)
  {
    var leftState := c.leftKey || c.leftMouse;
    var rightState := c.rightKey || c.rightMouse;
    if c.lastLeftState != leftState || c.lastRightState != rightState then
      var event := if leftState || rightState then Grow else Shrink;
      (c.(lastLeftState := leftState, lastRightState := rightState), Some(event))
    else (c, None)
  }

  /** A second update with the same inputs schedules nothing. */
  lemma UpdateButtonsSettles(c: CursorState)
    ensures UpdateButtons(UpdateButtons(c).0).1 == None
    ensures UpdateButtons(UpdateButtons(c).0).0 == UpdateButtons(c).0
  {
  }
}
