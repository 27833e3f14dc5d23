/** Judgement pop-ups of the knockout overlay
    (app/states/components/overlays/play/hitresults.go): each result is
    named after its skin texture, is dropped when that name is empty, and
    for a 100, a 50 or a miss shows the player's name drifting up or down
    by team. The random drift factor is a parameter. */
module HitResultsOverlay {
  import opened OsuResults
  import opened Wrappers

  /** The ruleset's result timing constants, in milliseconds. */
  datatype Timing = Timing(resultFadeIn: int, postEmpt: int, resultFadeOut: int)

  datatype Colour = Colour(r: real, g: real, b: real, a: real)

  /** The floating player name: shown from `showTime`, faded in over
      [fadeInStart, fadeInEnd], faded out over [fadeOutStart, fadeOutEnd],
      moved from `startY` to `endY` over the whole of it. */
  datatype NameSprite = NameSprite(text: string, showTime: real,
                                   fadeInStart: real, fadeInEnd: real, fadeOutStart: real, fadeOutEnd: real,
                                   startY: real, endY: real, colour: Option<Colour>)

  /** What one accepted result schedules. */
  datatype ResultEntry = ResultEntry(texture: string, fadeIn: int, postEmpt: int, fadeOut: real,
                                     name: Option<NameSprite>)

  function BaseTexture(b: BaseHit): string {
    match b
    case Hit300 => "hit300"
    case Hit100 => "hit100"
    case Hit50 => "hit50"
    case Miss => "hit0"
    case NoBase => ""
  }

  function AdditionSuffix(a: Addition): string {
    match a
    case KatuAddition => "k"
    case GekiAddition => "g"
    case _ => ""
  }

  /** Length of the base judgement's texture name. */
  function BaseLength(b: BaseHit): nat {
    match b
    case Hit300 => 6
    case Hit100 => 6
    case Hit50 => 5
    case Miss => 4
    case NoBase => 0
  }

  /** Exactly katu or exactly geki: the additions that name a texture. */
  predicate HasSuffix(r: HitResult) {
    AdditionOf(r) == KatuAddition || AdditionOf(r) == GekiAddition
  }

  /** The skin texture for a result: the base name with `k` for katu or
      `g` for geki appended, even to an empty base name. */
  function TextureName(r: HitResult): (tex: string)
    ensures |tex| == BaseLength(BaseOf(r)) + (if HasSuffix(r) then 1 else 0)
    ensures BaseOf(r) == Hit300 ==> "hit300" <= tex
    ensures BaseOf(r) == Hit100 ==> "hit100" <= tex
    ensures BaseOf(r) == Hit50 ==> "hit50" <= tex
    ensures BaseOf(r) == Miss ==> "hit0" <= tex
    ensures AdditionOf(r) == KatuAddition ==> |tex| > 0 && tex[|tex| - 1] == 'k'
    ensures AdditionOf(r) == GekiAddition ==> |tex| > 0 && tex[|tex| - 1] == 'g'
  {
    BaseTexture(BaseOf(r)) + AdditionSuffix(AdditionOf(r))
  }

  /** The name is empty exactly when there is neither a base judgement nor
      a katu or geki addition. */
  lemma EmptyTextureName(r: HitResult)
    ensures TextureName(r) == "" <==>
              BaseOf(r) == NoBase && AdditionOf(r) != KatuAddition && AdditionOf(r) != GekiAddition
  {
  }

  /** Different judgements get different textures: the name determines the
      base judgement and whether katu or geki was added. */
  lemma TextureNameInjective(r1: HitResult, r2: HitResult)
    requires TextureName(r1) == TextureName(r2)
    ensures BaseOf(r1) == BaseOf(r2)
    ensures AdditionSuffix(AdditionOf(r1)) == AdditionSuffix(AdditionOf(r2))
  {
    var t := TextureName(r1);
    var s1, s2 := AdditionSuffix(AdditionOf(r1)), AdditionSuffix(AdditionOf(r2));
    var b1, b2 := BaseTexture(BaseOf(r1)), BaseTexture(BaseOf(r2));
    assert |s1| <= 1 && |s2| <= 1;
    if |t| > 0 && (t[|t| - 1] == 'k' || t[|t| - 1] == 'g') {
      assert s1 == [t[|t| - 1]] && s2 == [t[|t| - 1]];
    } else {
      assert s1 == "" && s2 == "";
    }
    assert b1 == t[..|t| - |s1|] == b2;
  }

  /** The name sprite's colour by base judgement. */
  function NameColour(b: BaseHit): Option<Colour> {
    match b
    case Hit100 => Some(Colour(0.44, 0.98, 0.18, 1.0))
    case Hit50 => Some(Colour(0.2, 0.8, 1.0, 1.0))
    case Miss => Some(Colour(0.98, 0.11, 0.011, 1.0))
    case _ => None
  }

  /** Records one result at `time`. `u` is the random value in [0, 1) that
      sets how far the name drifts. */
  function AddResult(tm: Timing, time: int, r: HitResult, name: string, teamIndex: int, y: real, u: real)
    : (e: Option<ResultEntry>)
    requires 0.0 <= u < 1.0
    ensures e.None? <==> TextureName(r) == ""
    ensures e.Some? ==> e.value.texture == TextureName(r)
    ensures e.Some? ==> e.value.fadeIn == time + tm.resultFadeIn && e.value.postEmpt == time + tm.postEmpt
    ensures e.Some? ==> e.value.fadeOut == (time + tm.postEmpt + tm.resultFadeOut + 350) as real
    ensures e.Some? ==> (e.value.name.Some? <==> IsImperfect(r))
    ensures e.Some? && e.value.name.Some? ==>
              var n := e.value.name.value;
              && n.text == name
              && n.showTime == time as real + 1.0
              && n.fadeInStart == time as real && n.fadeInEnd == e.value.fadeIn as real
              && n.fadeOutStart == e.value.postEmpt as real && n.fadeOutEnd == e.value.fadeOut
              && n.startY == y + (if teamIndex == 0 then 10.0 else -10.0)
              && (teamIndex == 0 ==> 30.0 <= n.endY - y < 50.0)
              && (teamIndex != 0 ==> -50.0 < n.endY - y <= -30.0)
              && n.colour.Some?
  {
    var tex := TextureName(r);
    if tex == "" then None
    else
      var fadeIn := time + tm.resultFadeIn;
      var postEmpt := time + tm.postEmpt;
      var fadeOut := postEmpt as real + tm.resultFadeOut as real + 350.0;
      var sprite :=
        if IsImperfect(r) then
          var startBump := if teamIndex == 0 then 10.0 else -10.0;
          var endBump := startBump * (3.0 + 2.0 * u);
          Some(NameSprite(name, time as real + 1.0, time as real, fadeIn as real, postEmpt as real, fadeOut,
                          y + startBump, y + endBump, NameColour(BaseOf(r))))
        else None;
      Some(ResultEntry(tex, fadeIn, postEmpt, fadeOut, sprite))
  }

  /** A 300 is shown without a name; the name appears only for results
      that cost accuracy. */
  lemma PerfectHasNoName(tm: Timing, time: int, addition: Addition, name: string, teamIndex: int, y: real, u: real)
    requires 0.0 <= u < 1.0
    ensures AddResult(tm, time, Judgement(Hit300, addition), name, teamIndex, y, u).Some?
    ensures AddResult(tm, time, Judgement(Hit300, addition), name, teamIndex, y, u).value.name.None?
  {
  }
}
