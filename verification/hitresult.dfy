/** The judgement of one hit as the osu! ruleset reports it to listeners.
    The ruleset packs it into a bit set; only the parts the overlays read
    are kept: the base judgement (the bits under `BaseHitsM`), the
    addition (the bits under `Additions`) and the special value
    `PositionalMiss`. */
module OsuResults {

  /** The base judgement; `NoBase` stands for every bit pattern that is
      none of the four named ones. */
  datatype BaseHit = NoBase | Hit300 | Hit100 | Hit50 | Miss

  /** The addition; `OtherAddition` stands for every bit pattern that is
      neither exactly katu nor exactly geki. */
  datatype Addition = NoAddition | KatuAddition | GekiAddition | OtherAddition

  datatype HitResult = PositionalMiss | Judgement(base: BaseHit, addition: Addition)

  datatype ComboResult = Reset | Increase | Hold

  /** The base judgement of a result (`result & BaseHitsM`); a positional
      miss has none. */
  function BaseOf(r: HitResult): BaseHit {
    if r.Judgement? then r.base else NoBase
  }

  function AdditionOf(r: HitResult): Addition {
    if r.Judgement? then r.addition else NoAddition
  }

  /** Any base bit is set (`result & BaseHitsM > 0`). */
  predicate HasBase(r: HitResult) {
    BaseOf(r) != NoBase
  }

  /** A 100, a 50 or a miss: `(result & BaseHitsM) & (Hit100|Hit50|Miss) > 0`. */
  predicate IsImperfect(r: HitResult) {
    BaseOf(r) == Hit100 || BaseOf(r) == Hit50 || BaseOf(r) == Miss
  }
}
