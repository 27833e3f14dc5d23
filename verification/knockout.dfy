/** The knockout overlay (app/states/components/overlays/knockoutoverlay.go):
    many replays of one map play at once and players are knocked out by
    mode-dependent rules as their judgements arrive; the overlay also
    smooths each player's health bar and fades out during breaks. */
module Knockout {
  import opened OsuResults
  import opened GoMath
  import opened Wrappers

  datatype Mode = ComboBreak | MaxCombo | XReplays | OneVsOne | SSOrQuit

  /** The knockout settings: the mode and the grace period (in seconds) of
      ComboBreak mode. */
  datatype Settings = Settings(mode: Mode, graceEndTime: real)

  /** A player's knockout state. `maxCombo` is the replay's final max combo. */
  datatype Player = Player(sCombo: int, maxCombo: int, hasBroken: bool, breakTime: int,
                           score: int, pp: real, displayHp: real)

  /** What one judgement does to the overlay: the new player table, whether
      the player was knocked out by it (a death bubble is added), and
      whether it is shown as a pop-up and on the miss timeline. */
  datatype HitOutcome = HitOutcome(players: map<string, Player>, knockedOut: bool, resultShown: bool)

  function Abs(x: int): nat {
    if x < 0 then -x else x
  }

  /** The judgement may knock the player out: in SSOrQuit mode any 100, 50,
      miss or combo break; in every mode a combo break on any object but
      the first. */
  predicate ConsidersKnockout(s: Settings, result: HitResult, combo: ComboResult, number: int) {
    (s.mode == SSOrQuit && (IsImperfect(result) || combo == Reset)) || (combo == Reset && number != 0)
  }

  /** The mode agrees to the knock-out, given the combo after this hit's
      increase but before its reset. */
  predicate ModeKnocksOut(s: Settings, time: int, sCombo: int, maxCombo: int) {
    s.mode != XReplays &&
    (s.mode == SSOrQuit
     || (s.mode == ComboBreak && time > Trunc(s.graceEndTime * 1000.0))
     || (s.mode == MaxCombo && Abs(sCombo - maxCombo) < 5))
  }

  /** The listener the ruleset calls for every judgement of the player
      called `name`. */
  function HitReceived(s: Settings, players: map<string, Player>, name: string, time: int, number: int,
                       result: HitResult, combo: ComboResult, ppTotal: real, score: int): (o: HitOutcome)
    requires result != PositionalMiss ==> name in players
    ensures result == PositionalMiss ==> o == HitOutcome(players, false, false)
    ensures o.players.Keys == players.Keys
    ensures forall n :: n in players && n != name ==> o.players[n] == players[n]
    ensures result != PositionalMiss ==>
              var p, q := players[name], o.players[name];
              && q.score == score && q.pp == ppTotal
              && q.maxCombo == p.maxCombo && q.displayHp == p.displayHp
              && q.sCombo == (match combo case Reset => 0 case Increase => p.sCombo + 1 case Hold => p.sCombo)
              && (o.knockedOut <==>
                    !p.hasBroken && ConsidersKnockout(s, result, combo, number)
                    && ModeKnocksOut(s, time, if combo == Increase then p.sCombo + 1 else p.sCombo, p.maxCombo))
              && (o.knockedOut ==> q.hasBroken && q.breakTime == time)
              && (!o.knockedOut ==> q.hasBroken == p.hasBroken && q.breakTime == p.breakTime)
              && (o.resultShown <==> HasBase(result))
  {
    if result == PositionalMiss then HitOutcome(players, false, false)
    else
      var p := players[name].(score := score, pp := ppTotal);
      var p := if combo == Increase then p.(sCombo := p.sCombo + 1) else p;
      var comboBreak := combo == Reset;
      var knockedOut :=
        ConsidersKnockout(s, result, combo, number) && !p.hasBroken && ModeKnocksOut(s, time, p.sCombo, p.maxCombo);
      var p := if knockedOut then p.(hasBroken := true, breakTime := time) else p;
      var p := if comboBreak then p.(sCombo := 0) else p;
      HitOutcome(players[name := p], knockedOut, HasBase(result))
  }

  /** Whether a known player has been knocked out. The overlay holds its
      players by pointer, so an unknown name is a nil dereference. */
  function IsBroken(players: map<string, Player>, name: string): (broken: bool)
    requires name in players
    ensures broken <==> players[name].hasBroken
  {
    players[name].hasBroken
  }

  /** After a judgement a player is out exactly when it was out before or
      this judgement knocked it out. */
  lemma BrokenAfterHit(s: Settings, players: map<string, Player>, name: string, time: int, number: int,
                       result: HitResult, combo: ComboResult, ppTotal: real, score: int, who: string)
    requires result != PositionalMiss ==> name in players
    requires who in players
    ensures who in HitReceived(s, players, name, time, number, result, combo, ppTotal, score).players
    ensures IsBroken(HitReceived(s, players, name, time, number, result, combo, ppTotal, score).players, who)
            <==> IsBroken(players, who)
                 || (who == name && HitReceived(s, players, name, time, number, result, combo, ppTotal, score).knockedOut)
  {
  }

  /** Once knocked out, a player stays out and keeps the time it happened. */
  lemma BrokenIsPermanent(s: Settings, players: map<string, Player>, name: string, time: int, number: int,
                          result: HitResult, combo: ComboResult, ppTotal: real, score: int, who: string)
    requires result != PositionalMiss ==> name in players
    requires who in players && IsBroken(players, who)
    ensures IsBroken(HitReceived(s, players, name, time, number, result, combo, ppTotal, score).players, who)
    ensures HitReceived(s, players, name, time, number, result, combo, ppTotal, score).players[who].breakTime
            == players[who].breakTime
    ensures who == name ==> !HitReceived(s, players, name, time, number, result, combo, ppTotal, score).knockedOut
  {
  }

  /** In XReplays and OneVsOne mode nobody is ever knocked out. */
  lemma NoKnockoutWithoutElimination(s: Settings, players: map<string, Player>, name: string, time: int, number: int,
                                     result: HitResult, combo: ComboResult, ppTotal: real, score: int)
    requires s.mode == XReplays || s.mode == OneVsOne
    requires result != PositionalMiss ==> name in players
    ensures !HitReceived(s, players, name, time, number, result, combo, ppTotal, score).knockedOut
    ensures forall n :: n in players ==>
              HitReceived(s, players, name, time, number, result, combo, ppTotal, score).players[n].hasBroken
              == players[n].hasBroken
  {
  }

  /** ComboBreak mode knocks out exactly on a combo break after the first
      object once the grace period is over. */
  lemma ComboBreakKnockout(s: Settings, players: map<string, Player>, name: string, time: int, number: int,
                           result: HitResult, combo: ComboResult, ppTotal: real, score: int)
    requires s.mode == ComboBreak
    requires result != PositionalMiss && name in players && !players[name].hasBroken
    ensures HitReceived(s, players, name, time, number, result, combo, ppTotal, score).knockedOut
            <==> combo == Reset && number != 0 && time > Trunc(s.graceEndTime * 1000.0)
  {
  }

  /** MaxCombo mode knocks out on a combo break only when the combo just
      lost was within 5 of the replay's max combo. */
  lemma MaxComboKnockout(s: Settings, players: map<string, Player>, name: string, time: int, number: int,
                         result: HitResult, combo: ComboResult, ppTotal: real, score: int)
    requires s.mode == MaxCombo
    requires result != PositionalMiss && name in players && !players[name].hasBroken
    ensures HitReceived(s, players, name, time, number, result, combo, ppTotal, score).knockedOut
            <==> combo == Reset && number != 0 && Abs(players[name].sCombo - players[name].maxCombo) < 5
  {
  }

  /** SSOrQuit mode knocks out on the first 100, 50, miss or combo break,
      on any object. */
  lemma SSOrQuitKnockout(s: Settings, players: map<string, Player>, name: string, time: int, number: int,
                         result: HitResult, combo: ComboResult, ppTotal: real, score: int)
    requires s.mode == SSOrQuit
    requires result != PositionalMiss && name in players && !players[name].hasBroken
    ensures HitReceived(s, players, name, time, number, result, combo, ppTotal, score).knockedOut
            <==> IsImperfect(result) || combo == Reset
  {
  }

  /** One frame of health-bar smoothing: rise by a quarter of the gap, or
      fall by a sixth of it, per 16.667 ms of `delta`, clamped into [0, 1]. */
  function StepDisplayHp(displayHp: real, currentHp: real, delta: real): (r: real)
    ensures displayHp < currentHp ==> r <= 1.0
    ensures displayHp > currentHp ==> r >= 0.0
    ensures displayHp == currentHp ==> r == displayHp
  {
    if displayHp < currentHp then
      var up := displayHp + (currentHp - displayHp) / 4.0 * delta / 16.667;
      if up < 1.0 then up else 1.0
    else if displayHp > currentHp then
      var down := displayHp - (displayHp - currentHp) / 6.0 * delta / 16.667;
      if down > 0.0 then down else 0.0
    else displayHp
  }

  lemma FractionBound(gap: real, k: real, delta: real)
    requires gap > 0.0 && k > 0.0 && 0.0 <= delta <= k * 16.667
    ensures 0.0 <= gap / k * delta / 16.667 <= gap
  {
    var f := delta / (k * 16.667);
    assert gap / k * delta / 16.667 == gap * f;
    assert 0.0 <= f <= 1.0;
  }

  /** For a frame of at most 4 (rising) or 6 (falling) nominal frames, the
      displayed health moves toward the current health without passing it. */
  lemma DisplayHpNoOvershoot(displayHp: real, currentHp: real, delta: real)
    requires 0.0 <= displayHp <= 1.0 && 0.0 <= currentHp <= 1.0
    requires 0.0 <= delta
    ensures displayHp < currentHp && delta <= 4.0 * 16.667 ==>
              displayHp <= StepDisplayHp(displayHp, currentHp, delta) <= currentHp
    ensures displayHp > currentHp && delta <= 6.0 * 16.667 ==>
              currentHp <= StepDisplayHp(displayHp, currentHp, delta) <= displayHp
  {
    if displayHp < currentHp && delta <= 4.0 * 16.667 {
      FractionBound(currentHp - displayHp, 4.0, delta);
    }
    if displayHp > currentHp && delta <= 6.0 * 16.667 {
      FractionBound(displayHp - currentHp, 6.0, delta);
    }
  }

  /** For any non-negative frame time, health displayed inside [0, 1]
      stays inside [0, 1]. */
  lemma DisplayHpStaysInRange(displayHp: real, currentHp: real, delta: real)
    requires 0.0 <= displayHp <= 1.0 && 0.0 <= delta
    ensures 0.0 <= StepDisplayHp(displayHp, currentHp, delta) <= 1.0
  {
    if displayHp < currentHp {
      assert (currentHp - displayHp) / 4.0 * delta / 16.667 >= 0.0;
    } else if displayHp > currentHp {
      assert (displayHp - currentHp) / 6.0 * delta / 16.667 >= 0.0;
    }
  }

  /** Every player's displayed health is stepped toward the ruleset's
      current health for that player; nothing else changes. */
  function UpdateHealth(players: map<string, Player>, currentHp: map<string, real>, delta: real)
    : (r: map<string, Player>)
    requires players.Keys <= currentHp.Keys
    ensures r.Keys == players.Keys
    ensures forall n :: n in r ==>
              r[n] == players[n].(displayHp := StepDisplayHp(players[n].displayHp, currentHp[n], delta))
  {
    map n | n in players :: players[n].(displayHp := StepDisplayHp(players[n].displayHp, currentHp[n], delta))
  }

  predicate HealthInRange(players: map<string, Player>) {
    forall n :: n in players ==> 0.0 <= players[n].displayHp <= 1.0
  }

  /** Displayed health stays inside [0, 1] across frames. */
  lemma UpdateHealthKeepsRange(players: map<string, Player>, currentHp: map<string, real>, delta: real)
    requires players.Keys <= currentHp.Keys
    requires HealthInRange(players) && 0.0 <= delta
    ensures HealthInRange(UpdateHealth(players, currentHp, delta))
  {
    var r := UpdateHealth(players, currentHp, delta);
    forall n | n in r
      ensures 0.0 <= r[n].displayHp <= 1.0
    {
      DisplayHpStaysInRange(players[n].displayHp, currentHp[n], delta);
    }
  }

  /** A break of the map, in milliseconds. */
  datatype Pause = Pause(startTime: real, endTime: real)

  /** The pause lasts at least a second and contains t. */
  predicate Qualifies(b: Pause, t: real) {
    b.endTime - b.startTime >= 1000.0 && b.startTime <= t <= b.endTime
  }

  /** The scan of updateBreaks from pause i on: stop at the first pause
      starting after t, succeed at the first qualifying one. */
  function InBreakFrom(pauses: seq<Pause>, t: real, i: nat): bool
    requires i <= |pauses|
    decreases |pauses| - i
  {
    if i == |pauses| then false
    else if t < pauses[i].startTime then false
    else if Qualifies(pauses[i], t) then true
    else InBreakFrom(pauses, t, i + 1)
  }

  lemma {:induction false} InBreakFromExactly(pauses: seq<Pause>, t: real, i: nat)
    requires i <= |pauses|
    ensures InBreakFrom(pauses, t, i) <==>
              exists k :: i <= k < |pauses| && Qualifies(pauses[k], t)
                          && forall j :: i <= j < k ==> pauses[j].startTime <= t
    decreases |pauses| - i
  {
    if i < |pauses| {
      InBreakFromExactly(pauses, t, i + 1);
    }
  }

  /** The overlay is in a break exactly when some pause of at least a
      second contains the audio time and no earlier pause starts after it. */
  lemma InBreakExactly(pauses: seq<Pause>, t: real)
    ensures InBreakFrom(pauses, t, 0) <==>
              exists k :: 0 <= k < |pauses| && Qualifies(pauses[k], t)
                          && forall j :: 0 <= j < k ==> pauses[j].startTime <= t
  {
    InBreakFromExactly(pauses, t, 0);
  }

  predicate SortedByStart(pauses: seq<Pause>) {
    forall i, j :: 0 <= i < j < |pauses| ==> pauses[i].startTime <= pauses[j].startTime
  }

  /** For pauses in start order the early stop never hides a break. */
  lemma InBreakSorted(pauses: seq<Pause>, t: real)
    requires SortedByStart(pauses)
    ensures InBreakFrom(pauses, t, 0) <==> exists k :: 0 <= k < |pauses| && Qualifies(pauses[k], t)
  {
    InBreakExactly(pauses, t);
  }

  /** A fade of the whole overlay over [startTime, endTime] to `target`. */
  datatype FadeEvent = FadeEvent(startTime: real, endTime: real, target: real)

  /** Break detection at audio time `audioTime`; fades are scheduled at
      `time` (the tempo-adjusted time). Entering a break fades the overlay
      out if the settings say so; leaving one fades it back in. */
  function UpdateBreaks(breakMode: bool, pauses: seq<Pause>, audioTime: real, time: real,
                        hideOverlayOnBreaks: bool): (r: (bool, Option<FadeEvent>))
    ensures r.0 <==> exists k :: 0 <= k < |pauses| && Qualifies(pauses[k], audioTime)
                                 && forall j :: 0 <= j < k ==> pauses[j].startTime <= audioTime
    ensures r.1 == Some(FadeEvent(time, time + 500.0, 0.0)) <==> !breakMode && r.0 && hideOverlayOnBreaks
    ensures r.1 == Some(FadeEvent(time, time + 500.0, 1.0)) <==> breakMode && !r.0
    ensures r.1.None? <==> (breakMode == r.0 || (r.0 && !hideOverlayOnBreaks))
  {
    InBreakExactly(pauses, audioTime);
    var inBreak := InBreakFrom(pauses, audioTime, 0);
    var event :=
      if !breakMode && inBreak then
        if hideOverlayOnBreaks then Some(FadeEvent(time, time + 500.0, 0.0)) else None
      else if breakMode && !inBreak then Some(FadeEvent(time, time + 500.0, 1.0))
      else None;
    (inBreak, event)
  }
}
