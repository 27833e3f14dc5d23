/** The team score bar of the knockout overlay
    (app/states/components/overlays/play/scorebar.go): team 1's share of
    the total score, which the bar's glider moves to on every judgement. */
module ScoreBar {
  const MinInt64: int := -0x8000_0000_0000_0000
  const MaxInt64: int := 0x7FFF_FFFF_FFFF_FFFF

  predicate IsInt64(n: int) {
    MinInt64 <= n <= MaxInt64
  }

  /** Two's-complement wrap-around of a 64-bit signed sum. */
  function Wrap64(n: int): (r: int)
    ensures IsInt64(r)
    ensures IsInt64(n) ==> r == n
  {
    (n - MinInt64) % 0x1_0000_0000_0000_0000 + MinInt64
  }

  /** The bar's state: both team scores, team 1's share, and the value
      its glider starts from. */
  datatype Bar = Bar(scoreTeam1: int, scoreTeam2: int, pctTeam1: real, gliderValue: real)

  /** A glider event: move to `target` over [startTime, endTime]. */
  datatype GliderEvent = GliderEvent(startTime: real, endTime: real, target: real)

  function MaxReal(a: real, b: real): real {
    if a >= b then a else b
  }

  /** Team 1's share: its score (at least 1) over the 64-bit total (at
      least 2). */
  function Ratio(scoreTeam1: int, scoreTeam2: int): (r: real)
    ensures 1 <= scoreTeam1 && 1 <= scoreTeam2 && IsInt64(scoreTeam1 + scoreTeam2) ==>
              r * (scoreTeam1 + scoreTeam2) as real == scoreTeam1 as real
  {
    MaxReal(scoreTeam1 as real, 1.0) / MaxReal(Wrap64(scoreTeam1 + scoreTeam2) as real, 2.0)
  }

  /** A new bar shows an even match. */
  function NewScoreBar(): (b: Bar)
    ensures b.scoreTeam1 == b.scoreTeam2 == 1
    ensures b.pctTeam1 == Ratio(b.scoreTeam1, b.scoreTeam2) == 0.5
    ensures b.gliderValue == 0.5
  {
    Bar(1, 1, 0.5, 0.5)
  }

  /** Stores the scores and recomputes the share; the glider's own
      animation state is not modelled. */
  function Update(b: Bar, scoreTeam1: int, scoreTeam2: int): (b': Bar)
    ensures b'.scoreTeam1 == scoreTeam1 && b'.scoreTeam2 == scoreTeam2
    ensures b'.gliderValue == b.gliderValue
    ensures b'.pctTeam1 == Ratio(scoreTeam1, scoreTeam2)
    ensures IsInt64(scoreTeam1 + scoreTeam2) && 0 <= scoreTeam1 && 0 <= scoreTeam2 ==> 0.0 < b'.pctTeam1 <= 1.0
    ensures scoreTeam1 == scoreTeam2 && IsInt64(scoreTeam1 + scoreTeam2) ==> b'.pctTeam1 == 0.5
  {
    RatioInUnitInterval(scoreTeam1, scoreTeam2);
    EqualScoresHalf(scoreTeam1);
    b.(scoreTeam1 := scoreTeam1, scoreTeam2 := scoreTeam2, pctTeam1 := Ratio(scoreTeam1, scoreTeam2))
  }

  /** Moves the bar to the current share over 750 ms. */
  function NextScore(b: Bar, time: real): (e: GliderEvent)
    ensures e.endTime - e.startTime == 750.0 && e.startTime == time
    ensures e.target == b.pctTeam1
  {
    GliderEvent(time, time + 750.0, b.pctTeam1)
  }

  /** Non-negative scores whose total fits in 64 bits give a share in (0, 1]. */
  lemma RatioInUnitInterval(scoreTeam1: int, scoreTeam2: int)
    ensures IsInt64(scoreTeam1 + scoreTeam2) && 0 <= scoreTeam1 && 0 <= scoreTeam2 ==>
              0.0 < Ratio(scoreTeam1, scoreTeam2) <= 1.0
  {
    if IsInt64(scoreTeam1 + scoreTeam2) && 0 <= scoreTeam1 && 0 <= scoreTeam2 {
      var num := MaxReal(scoreTeam1 as real, 1.0);
      var den := MaxReal((scoreTeam1 + scoreTeam2) as real, 2.0);
      assert Wrap64(scoreTeam1 + scoreTeam2) == scoreTeam1 + scoreTeam2;
      assert Ratio(scoreTeam1, scoreTeam2) == num / den;
      QuotientAtMostOne(num, den);
    }
  }

  lemma QuotientAtMostOne(a: real, b: real)
    requires 0.0 < a <= b
    ensures 0.0 < a / b <= 1.0
  {
    var q := a / b;
    assert q * b == a;
  }

  /** Equal scores, including 0 against 0, give exactly half. */
  lemma EqualScoresHalf(score: int)
    ensures IsInt64(score + score) ==> Ratio(score, score) == 0.5
  {
    if IsInt64(score + score) && score >= 1 {
      var x := score as real;
      assert Wrap64(score + score) as real == 2.0 * x;
      assert x / (2.0 * x) == 0.5;
    }
  }

  /** Against a team at 0, team 1 fills the bar once it has at least 2
      points, but a single point only fills half of it. */
  lemma OpponentAtZero(scoreTeam1: int)
    requires IsInt64(scoreTeam1)
    ensures scoreTeam1 >= 2 ==> Ratio(scoreTeam1, 0) == 1.0
    ensures scoreTeam1 == 1 ==> Ratio(scoreTeam1, 0) == 0.5
  {
    assert Wrap64(scoreTeam1 + 0) == scoreTeam1;
    if scoreTeam1 >= 2 {
      var x := scoreTeam1 as real;
      assert x / x == 1.0;
    }
  }

  /** With both teams above 0, the two teams' shares add up to the whole bar. */
  lemma SharesComplement(scoreTeam1: int, scoreTeam2: int)
    requires 1 <= scoreTeam1 && 1 <= scoreTeam2 && IsInt64(scoreTeam1 + scoreTeam2)
    ensures Ratio(scoreTeam1, scoreTeam2) + Ratio(scoreTeam2, scoreTeam1) == 1.0
  {
    var t := (scoreTeam1 + scoreTeam2) as real;
    assert scoreTeam1 as real / t + scoreTeam2 as real / t == t / t;
  }

  /** A total that overflows 64 bits wraps negative, and the share then
      exceeds the whole bar. */
  lemma OverflowedTotal()
    ensures Ratio(MaxInt64, 1) == MaxInt64 as real / 2.0
    ensures Ratio(MaxInt64, 1) > 1.0
  {
    assert Wrap64(MaxInt64 + 1) == MinInt64;
  }
}
