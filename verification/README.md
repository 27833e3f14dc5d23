# danser-go core in Dafny

This project is a Dafny model of the self-contained logic inside danser-go, the osu! replay renderer. It covers:

- **Naitsirk curve and mover.** The cosine-blended curve segment `S` is built from a list of points, velocities and delta times. `PointAt` looks up the segment for a given time. `SetObjects` builds those lists from a run of hit objects and stops at the first long object.
- **Coordination skill.** The zero-strain guards, the aim term, and the entry/exit dwell times. Root-finding is skipped on overlap, and `Hit50` is the fallback. The result is `2 / timeInNote`. The skill also sets up the position curve.
- **Storyboard loops.** Parsing of the loop header, collecting transforms, and unwinding them `repeats` times at fixed offsets.
- **Strain graph.** Strains are grouped into buckets of `sectSize`, the peak of each bucket is taken, and the curve is framed by `(0,0)` and `(k,0)`. Progress is clamped into [0, 1].
- **Cursor.** With edge bouncing on, a point is mirrored back into the playfield, and button changes are tracked.
- **Knockout overlay.** Per-player combo and knock-out rules for each mode, smoothing of the displayed health, and break detection.
- **Judgement pop-ups.** Texture naming, fade timing, and the drifting player name.
- **Avatar circles.** The integer circle mask and the canvas layout.
- **Team score bar.**

Floating-point values are `real`. Trigonometry is a parameter: a `Trig` record holding `pi` and `cos`, with `cos 0 = 1` and `cos pi = -1` stated where needed. Four other inputs are also parameters:

- the mover's `getVelocity`;
- the Brent root finder;
- the 50-point quadrature;
- the random drift factor of the pop-ups.

Division by zero, which gives Inf or NaN in Go, is modelled where the code reaches it:

- `Sample.NotANumber` for a zero-length curve segment;
- `XReal.PosInf` for `2 / 0` in the coordination skill.

Elsewhere the zero divisor is excluded by a `requires` (see "Left out").

Modules, one per source file:

- `NaitsirkCurve`, `NaitsirkMover`, `Coordination`, `StoryboardLoop`, `StrainGraph`, `Cursor`, `Knockout`, `HitResultsOverlay`, `AvatarCircle` and `ScoreBar`.
- Shared helpers:
  - `Vectors` (2-D vectors);
  - `Wrappers` (`Option`);
  - `GoMath` (Go's truncating float-to-int conversion);
  - `OsuResults` (the judgement values as a datatype).

Where the code and its description differ, the model follows the code:

- **`SetObjects` with no long object.** When no long object stops it, `SetObjects` stores as many delta times as points: `len(objs) - 1` of each. The final object never becomes a point of its own. It is not `len(points) - 1` delta times as one might expect from a curve (`NaitsirkMover.SetObjects`).
- **`updateBreaks` uses the audio time.** It tests pauses against the overlay's audio time, not against its `time` parameter. The parameter only times the fade (`Knockout.UpdateBreaks`).
- **Loop iteration 1 overlaps iteration 0.** Iteration 0 is shifted by `start`. Iterations from 1 on are shifted by `start + i*transTime - minStart`. So iteration 1 begins `minStart` before iteration 0 ends, when measured against the transforms' own start times (`StoryboardLoop.SecondIterationOverlapsFirst`).

## Model

| member | source | states |
|---|---|---|
| NaitsirkCurve.NewNaitsirk | framework/math/curves/naitsirk.go:14-20 | points and velocities are kept as given; every delta time is divided by 100 and the count is unchanged |
| NaitsirkCurve.S | framework/math/curves/naitsirk.go:22-29 | a segment passes through its start point at local time 0 (when cos 0 = 1) and through its end point at the window's end (when cos pi = -1), whatever the two velocities |
| NaitsirkCurve.SStartsAtX0 | framework/math/curves/naitsirk.go:22-29 | given cos 0 = 1, the segment blend at t = 0 is exactly its start point x0 |
| NaitsirkCurve.SEndsAtX1 | framework/math/curves/naitsirk.go:22-29 | given cos pi = -1, the segment blend at t = dt is exactly its end point x1 |
| NaitsirkCurve.PointAt | framework/math/curves/naitsirk.go:31-48 | a curve of fewer than 2 points always gives the fallback; a NaN sample only comes from a consulted window of length zero |
| NaitsirkCurve.PointAtFirstWindow | framework/math/curves/naitsirk.go:31-46 | the sample is the first segment whose closed window contains the scaled time, evaluated at the time since that window opened, with relative velocities |
| NaitsirkCurve.PointAtNoWindow | framework/math/curves/naitsirk.go:39-48 | when no consulted window contains the time, the result is the fixed fallback (100, 100) |
| NaitsirkCurve.PointAtFewPoints | framework/math/curves/naitsirk.go:35-37 | a curve with fewer than 2 points always gives the fallback |
| NaitsirkCurve.PointAtNegativeTime | framework/math/curves/naitsirk.go:35-48 | with non-negative delta times, a negative time gives the fallback |
| NaitsirkCurve.PointAtPastEnd | framework/math/curves/naitsirk.go:35-48 | with non-negative delta times, a time past the last consulted window gives the fallback |
| NaitsirkCurve.ElapsedMonotone | framework/math/curves/naitsirk.go:39-44 | window start times never decrease when delta times are non-negative |
| NaitsirkCurve.SegmentsMeet | framework/math/curves/naitsirk.go:22-44 | segment i ends at point i+1 and segment i+1 starts there, so adjacent segments agree at their joint |
| NaitsirkCurve.PointAtBoundary | framework/math/curves/naitsirk.go:39-45 | at a shared window boundary the earlier segment is chosen, and the sample is the joint point itself |
| NaitsirkCurve.ExtraDeltaTimesIgnored | framework/math/curves/naitsirk.go:34-37 | delta times beyond the first len(points)-1 never change any sample |
| NaitsirkMover.ExitFrom | app/dance/movers/naitsirk.go:40-73 | the loop's exit index is at least its start and never past the last index |
| NaitsirkMover.SetObjects | app/dance/movers/naitsirk.go:29-78 | returns the number of objects consumed (first long object at index k gives k+1, none gives len(objs)); equal point and velocity counts; k+1 points and k delta times when truncated, len(objs)-1 of each otherwise; points are objs[0]'s end then start positions; delta time j is objs[j+1].start - objs[j].end; the first velocity equals the first point (zero relative velocity); later velocities follow the getVelocity recurrence; a truncating long object stores its own start position (zero relative velocity); startTime and endTime as set by the loop |
| NaitsirkMover.Update | app/dance/movers/naitsirk.go:80-83 | before the mover's start time (with non-negative delta times) the sample is the fallback; a NaN sample needs a zero delta time |
| NaitsirkMover.UpdateAtStart | app/dance/movers/naitsirk.go:80-83 | sampling at the mover's start time gives the curve's first point |
| NaitsirkMover.ExitFromFirstLong | app/dance/movers/naitsirk.go:65-69 | the scan stops at the first long object and passes only short objects before it |
| NaitsirkMover.ExitFromIs | app/dance/movers/naitsirk.go:40-73 | the exit index is exactly the first long object at or after the start, or the last index |
| NaitsirkMover.LoopExitIsFirstLong | app/dance/movers/naitsirk.go:40-73 | truncation happens if and only if some object at index 1 to len-2 is long, and then at the first such object |
| NaitsirkMover.LoopExitIgnoresFirst | app/dance/movers/naitsirk.go:45-65 | objs[0] is never checked for being long: replacing it does not change where the loop stops |
| Coordination.NewCoordinationSkill | app/rulesets/osu/performance/skills/coordination.go:18-27 | multiplier 23.25, decay base 0.1, history length 2 |
| Coordination.GetPrevious | app/rulesets/osu/performance/skills/coordination.go:45-47 | the i-th previous object exists exactly when the history is long enough |
| Coordination.StrainValue | app/rulesets/osu/performance/skills/coordination.go:29-41 | strain is 0 for a spinner, a history of at most one object, or a spinner just before |
| Coordination.StrainIsSum | app/rulesets/osu/performance/skills/coordination.go:37-54 | otherwise strain is the coordination term plus the aim term; it is infinite exactly when the time in note is 0; the aim term always uses the real object before the previous one, because the guard on a history of at most one object makes the substitution of a missing one unreachable here |
| Coordination.EntryTime | app/rulesets/osu/performance/skills/coordination.go:89-103 | Hit50 without a previous or next object; the current strain time when the current object overlaps the previous one; otherwise, with a root finder that stays in its bracket, a value in [0, strain time] |
| Coordination.ExitTime | app/rulesets/osu/performance/skills/coordination.go:105-118 | Hit50 without a next and a next-next object; the next object's strain time when it overlaps the current one; otherwise, with a bracketed root finder, a value in [0, next strain time] |
| Coordination.TimeInNote | app/rulesets/osu/performance/skills/coordination.go:66-120 | the entry and the exit time added up: twice Hit50 with no next object, the entry time plus Hit50 with only one |
| Coordination.AimDifficulty | app/rulesets/osu/performance/skills/coordination.go:43-64 | the aim term is 0 when the previous or next object is missing; otherwise, multiplied by the strain time, it is the quadrature over the span from the object before the previous one (the previous one itself when there is none) through the previous and current objects to the next |
| Coordination.CoordinationDifficulty | app/rulesets/osu/performance/skills/coordination.go:66-121 | the result times the time in note is 2, and it is +Inf exactly when the time in note is 0 |
| Coordination.EntryIgnoresRootFinder | app/rulesets/osu/performance/skills/coordination.go:89-103 | when there is no previous or next object, or the objects overlap, the entry time does not use the root finder; it is Hit50 or the current strain time respectively |
| Coordination.ExitIgnoresRootFinder | app/rulesets/osu/performance/skills/coordination.go:105-118 | when there is no next or next-next object, or the objects overlap, the exit time does not use the root finder; it is Hit50 or the next object's strain time |
| Coordination.TimeInNoteBounds | app/rulesets/osu/performance/skills/coordination.go:89-120 | with a root finder that stays in its bracket, the entry time lies in [0, strain time] (in [0, Hit50] without neighbours), the exit time in [0, next strain time] (in [0, Hit50] without two next objects), and the time in note is non-negative |
| Coordination.CoordinationPositive | app/rulesets/osu/performance/skills/coordination.go:120 | a positive time in note gives a finite positive difficulty |
| Coordination.StartVelocity | app/rulesets/osu/performance/skills/coordination.go:126 | the position curve's start velocity is always the zero vector |
| Coordination.PositionAt | app/rulesets/osu/performance/skills/coordination.go:123-130 | the cursor path leaves the last object's end at time 0 and reaches the current object's start at its strain time |
| Coordination.PositionAtEnds | app/rulesets/osu/performance/skills/coordination.go:123-130 | the position curve starts at the last object's end and reaches the current object's start after its strain time |
| Coordination.EntryBracketChangesSign | app/rulesets/osu/performance/skills/coordination.go:89-103 | for non-overlapping objects, the entry residual is positive at 0 and -1 at the strain time, so Brent's bracket is valid |
| Coordination.ExitBracketChangesSign | app/rulesets/osu/performance/skills/coordination.go:105-118 | for non-overlapping objects, the exit residual is -1 at 0 and positive at the next object's strain time |
| Coordination.SquaredDistanceSymmetric | app/rulesets/osu/performance/skills/coordination.go:91-107 | the overlap test does not depend on the order of the two positions; the entry bracket lemma relies on it, since the source tests the current start against the previous end while the residual measures from the path to the current start |
| StoryboardLoop.ParseInt64 | app/storyboard/loop.go:14-19 | the header fields are parsed as Go's ParseInt in base 10 on 64 bits, its error dropped: a sign and digits give the value clamped to int64; no digits, or a non-digit after digits that fit in 64 bits, give 0; digits that overflow 64 bits give the bound of the sign whatever follows |
| StoryboardLoop.ParseFormatRoundTrip | app/storyboard/loop.go:14-19 | every int64 written in decimal parses back to itself |
| StoryboardLoop.NewLoopProcessor | app/storyboard/loop.go:14-19 | fields 1 and 2 give the start time and repeat count, each exactly as ParseInt64 reads it (so every decimal int64 is read back unchanged); the transform list starts empty |
| StoryboardLoop.Add | app/storyboard/loop.go:21-23 | the new transforms are appended after the existing ones, in order; nothing else changes |
| StoryboardLoop.MinStart | app/storyboard/loop.go:28-36 | the smallest transform start time: below or equal to every start, and attained |
| StoryboardLoop.MaxEnd | app/storyboard/loop.go:28-36 | the largest transform end time: above or equal to every end, and attained |
| StoryboardLoop.TransTime | app/storyboard/loop.go:36 | one iteration's length is at least every transform's duration, so it is non-negative whenever some duration is |
| StoryboardLoop.Unwind | app/storyboard/loop.go:25-50 | max(repeats, 0) copies of every transformation, nothing without transformations or repeats |
| StoryboardLoop.UnwindLength | app/storyboard/loop.go:38-48 | the result has max(repeats, 0) times the number of transforms items, so it is empty without transforms or repeats |
| StoryboardLoop.IterationsAt | app/storyboard/loop.go:38-47 | the output is ordered iteration by iteration, each in Add order |
| StoryboardLoop.UnwindAt | app/storyboard/loop.go:38-47 | item i*n+j is transform j of iteration i: same command, start at the iteration offset plus its own start, same duration |
| StoryboardLoop.FirstIterationAtLoopStart | app/storyboard/loop.go:39-45 | iteration 0 shifts every transform by exactly the loop's start |
| StoryboardLoop.LaterIterationsEvenlySpaced | app/storyboard/loop.go:36-45 | iterations i and i+1 for i >= 1 lie exactly one iteration length apart |
| StoryboardLoop.SecondIterationOverlapsFirst | app/storyboard/loop.go:39-42 | iteration 1's first transform starts minStart before iteration 0's span ends |
| StrainGraph.SectSize | app/states/components/overlays/play/straingraph.go:84 | the section size is at least 1; above 1 it is the truncated duration-per-pixel ratio |
| StrainGraph.Peak | app/states/components/overlays/play/straingraph.go:91-95 | a bucket's value is >= 0, >= every strain in it, and either 0 or one of them |
| StrainGraph.BucketCount | app/states/components/overlays/play/straingraph.go:88 | bucket k exists exactly when k*sectSize < n, so there are ceil(n/sectSize) buckets |
| StrainGraph.BucketsPartition | app/states/components/overlays/play/straingraph.go:88-89 | the first k buckets, joined, are exactly the first min(n, k*sectSize) strains: no overlap and no gap |
| StrainGraph.BucketsCoverAll | app/states/components/overlays/play/straingraph.go:88-89 | all buckets joined give back the whole strain array |
| StrainGraph.SectionsPeak | app/states/components/overlays/play/straingraph.go:91-95 | the inner loop computes the peak of strains[lo..hi] |
| StrainGraph.ShapeIncreasing | app/states/components/overlays/play/straingraph.go:86-101 | curve x values strictly increase whenever there are strains; with none, the curve is two origins |
| StrainGraph.BucketPoints | app/states/components/overlays/play/straingraph.go:86-101 | the points are (0,0), then (j+0.5, peak of bucket j), then (k,0); maxStrain never decreases, bounds every bucket peak and is either the old value or one of them |
| StrainGraph.GenerateCurve | app/states/components/overlays/play/straingraph.go:80-104 | 2 + ceil(n/sectSize) points from (0,0) to (k,0), each bucket's point at x = j + 0.5 with its peak as y; x strictly increasing when n >= 1; maxStrain monotone and at least every peak |
| StrainGraph.Progress | app/states/components/overlays/play/straingraph.go:75 | progress lies in [0, 1] and, strictly inside, is the elapsed fraction of the map |
| StrainGraph.Update | app/states/components/overlays/play/straingraph.go:73-78 | the progress is the clamped elapsed fraction at the given time; the left and right cut amounts sum to 1 and the right cut is the progress; the strains, the peak, the start and end times and the width are untouched |
| StrainGraph.ProgressMonotone | app/states/components/overlays/play/straingraph.go:75 | progress never decreases with time; it is 0 up to the start and 1 from the end |
| Cursor.Excess | app/graphics/cursor.go:104-118 | a coordinate is outside the range by a positive amount exactly when the loop would reflect it |
| Cursor.ReflectShrinks | app/graphics/cursor.go:101-123 | for a range of positive width, each reflection removes one width from the excess, so the loop terminates |
| Cursor.Fold | app/graphics/cursor.go:101-123 | repeated reflection ends inside the range, and a coordinate already inside is unchanged |
| Cursor.FoldIsMirrorImage | app/graphics/cursor.go:104-116 | the result is the coordinate or its mirror image in the minimum, shifted by a whole number of double widths |
| Cursor.FoldIdempotent | app/graphics/cursor.go:101-123 | folding a folded coordinate changes nothing |
| Cursor.ZeroWidthCycles | app/graphics/cursor.go:101-123 | with a zero-width range an off-edge coordinate flips between two images forever and is never inside |
| Cursor.SetPos | app/graphics/cursor.go:97-127 | with bouncing off or more than 2 playfield divisions the point is stored unchanged; otherwise each coordinate is folded independently into the playfield; a point already inside is unchanged; nothing else in the cursor changes |
| Cursor.UpdateButtons | app/graphics/cursor.go:133-152 | the remembered states become the current key-or-mouse states; an event is scheduled exactly when either changed, and it is a grow when some button is now down and a shrink otherwise |
| Cursor.UpdateButtonsSettles | app/graphics/cursor.go:136-147 | a second update with the same inputs schedules nothing and changes nothing |
| Knockout.HitReceived | app/states/components/overlays/knockoutoverlay.go:217-308 | a positional miss changes nothing; otherwise only the hit player changes: score and pp stored, combo +1 on Increase and 0 on Reset; knocked out exactly when not yet out, the entry condition holds and the mode agrees on the combo before reset; then out with breakTime = time; the result is shown exactly when it has a base judgement |
| Knockout.IsBroken | app/states/components/overlays/knockoutoverlay.go:636-638 | the knocked-out flag of a player the overlay knows; an unknown name is excluded, since the overlay holds players by pointer and Go would dereference nil |
| Knockout.BrokenIsPermanent | app/states/components/overlays/knockoutoverlay.go:268-280 | a knocked-out player stays out, keeps its break time and is never knocked out again |
| Knockout.BrokenAfterHit | app/states/components/overlays/knockoutoverlay.go:268-280 | after a judgement a player is knocked out exactly when it was before, or it is the judged player and this judgement knocked it out |
| Knockout.NoKnockoutWithoutElimination | app/states/components/overlays/knockoutoverlay.go:269-276 | in XReplays and OneVsOne mode nobody is ever knocked out |
| Knockout.ComboBreakKnockout | app/states/components/overlays/knockoutoverlay.go:265-276 | ComboBreak mode knocks out exactly on a combo break after the first object later than the truncated grace time times 1000 |
| Knockout.MaxComboKnockout | app/states/components/overlays/knockoutoverlay.go:265-293 | MaxCombo mode knocks out exactly on a combo break after the first object when the combo before the reset was within 5 of the max combo |
| Knockout.SSOrQuitKnockout | app/states/components/overlays/knockoutoverlay.go:246-276 | SSOrQuit mode knocks out exactly on the first 100, 50, miss or combo break |
| Knockout.StepDisplayHp | app/states/components/overlays/knockoutoverlay.go:349-353 | the rising branch never exceeds 1, the falling branch never drops below 0, and equal health is left alone |
| Knockout.DisplayHpNoOvershoot | app/states/components/overlays/knockoutoverlay.go:349-353 | for frames up to 4 (rising) or 6 (falling) nominal frames long, displayed health moves toward the current health without passing it |
| Knockout.DisplayHpStaysInRange | app/states/components/overlays/knockoutoverlay.go:349-353 | for a non-negative frame time, displayed health in [0, 1] stays in [0, 1] |
| Knockout.UpdateHealth | app/states/components/overlays/knockoutoverlay.go:335-354 | every player's displayed health takes one smoothing step; nothing else changes |
| Knockout.UpdateHealthKeepsRange | app/states/components/overlays/knockoutoverlay.go:335-354 | all displayed health values stay in [0, 1] across frames |
| Knockout.InBreakExactly | app/states/components/overlays/knockoutoverlay.go:641-654 | break mode holds exactly when some pause of at least 1000 ms contains the audio time and no earlier pause starts after it |
| Knockout.InBreakSorted | app/states/components/overlays/knockoutoverlay.go:641-654 | for pauses in start order, the early stop never hides a break |
| Knockout.UpdateBreaks | app/states/components/overlays/knockoutoverlay.go:640-664 | the new break mode as above; entering a break schedules a 500 ms fade to 0 only when hiding is on; leaving one schedules a fade to 1; otherwise nothing |
| HitResultsOverlay.TextureName | app/states/components/overlays/play/hitresults.go:43-59 | hit300/hit100/hit50/hit0 for the base results (nothing without one), with exactly one k for katu or g for geki appended: the length is that of the base name plus one with a suffix |
| HitResultsOverlay.EmptyTextureName | app/states/components/overlays/play/hitresults.go:43-63 | the name is empty exactly when there is no base result and no katu or geki |
| HitResultsOverlay.TextureNameInjective | app/states/components/overlays/play/hitresults.go:43-59 | the texture name determines the base result and its katu/geki suffix |
| HitResultsOverlay.AddResult | app/states/components/overlays/play/hitresults.go:39-168 | nothing is added exactly when the texture name is empty; fade-in, post-empt and fade-out = time + PostEmpt + ResultFadeOut + 350; a name sprite exactly for a 100, 50 or miss, with a start bump of +10 for team 0 and -10 otherwise and an end bump of the same sign with magnitude in [30, 50) |
| HitResultsOverlay.PerfectHasNoName | app/states/components/overlays/play/hitresults.go:125 | a 300 is always shown, and never with a name |
| AvatarCircle.Rect | app/states/components/overlays/play/avatarcircle.go:33 | a rectangle built from two corners has its minimum before its maximum on both axes |
| AvatarCircle.Bounds | app/states/components/overlays/play/avatarcircle.go:32-34 | for r >= 0, the bounds are the half-open square [px-r, px+r) x [py-r, py+r) |
| AvatarCircle.At | app/states/components/overlays/play/avatarcircle.go:36-42 | the mask is 255 or 0, and 255 exactly when (4dx+1)^2 + (4dy+1)^2 < 16r^2 |
| AvatarCircle.SixteenfoldSquares | app/states/components/overlays/play/avatarcircle.go:37-38 | the quarter-pixel test on reals is equivalent to the integer test scaled by 16 |
| AvatarCircle.RadiusSign | app/states/components/overlays/play/avatarcircle.go:32-42 | the mask and its bounds depend only on the magnitude of the radius |
| AvatarCircle.OpaqueWithinBounds | app/states/components/overlays/play/avatarcircle.go:32-42 | every opaque pixel lies inside the mask's bounds |
| AvatarCircle.MaskGrowsWithRadius | app/states/components/overlays/play/avatarcircle.go:38 | a larger radius around the same centre covers every opaque pixel of the smaller one |
| AvatarCircle.LoadAvatar | app/states/components/overlays/play/avatarcircle.go:78-85 | the canvas is the pixmap size plus 25 on each axis; both masks are centred at half the canvas size; the disk radius is Width/2 and the ring's is 10 more; the avatar is drawn 12 pixels in |
| AvatarCircle.RingCoversDisk | app/states/components/overlays/play/avatarcircle.go:84-85 | the team-colour ring covers every pixel of the avatar disk |
| AvatarCircle.RingFitsCanvas | app/states/components/overlays/play/avatarcircle.go:80-84 | the ring fits on the canvas horizontally, and vertically when the avatar is at least as tall as wide |
| AvatarCircle.DiskCentredOnAvatar | app/states/components/overlays/play/avatarcircle.go:82-85 | moved back by the drawing offset, the disk centre falls on avatar pixel Width/2, rounded up for an odd width |
| ScoreBar.NewScoreBar | app/states/components/overlays/play/scorebar.go:24-33 | both scores start at 1, the share at 0.5 (which is also what the formula gives) and the glider at 0.5 |
| ScoreBar.Ratio | app/states/components/overlays/play/scorebar.go:42 | with both scores at least 1 and a total that fits in int64, the share is team 1's score over the total |
| ScoreBar.Update | app/states/components/overlays/play/scorebar.go:39-44 | both scores are stored unchanged and the share is recomputed as Ratio of the new scores; for non-negative scores the share lies in (0, 1]; equal scores give exactly 0.5 |
| ScoreBar.NextScore | app/states/components/overlays/play/scorebar.go:35-37 | the glider moves to the current share over 750 ms |
| ScoreBar.RatioInUnitInterval | app/states/components/overlays/play/scorebar.go:42 | non-negative scores with a 64-bit total give a share in (0, 1] |
| ScoreBar.EqualScoresHalf | app/states/components/overlays/play/scorebar.go:42 | equal scores, including 0 against 0, give exactly 0.5 |
| ScoreBar.OpponentAtZero | app/states/components/overlays/play/scorebar.go:42 | against a team at 0, team 1 has the whole bar from 2 points on, but only half of it with 1 point |
| ScoreBar.SharesComplement | app/states/components/overlays/play/scorebar.go:42 | with both teams above 0, team 1's share and team 2's share add up to 1 |
| ScoreBar.OverflowedTotal | app/states/components/overlays/play/scorebar.go:42 | a total that overflows int64 wraps negative and the share exceeds 1 |

## Left out

- Rendering is left out: batches, framebuffers, the shape renderer, sprites, fonts, textures and every `Draw*` method. These are GPU side effects.
- Animation gliders, easing, tempo-scaled time and the cursor-size formula are left out. These belong to external animation code; a scheduled glider event is modelled as a value.
- Avatar fetching is left out: HTTP, osu!api, asset and pixmap loading and the pixel copying of `draw.DrawMask`. These are network and I/O; only the geometry is modelled.
- `getVelocity` and `velocityAt` are left out. They are trigonometric velocity formulas: `getVelocity` is a parameter, and `velocityAt` only feeds the aim integrand inside the quadrature parameter.
- The Brent root finder and the gonum quadrature are parameters. The bracket assumption of `Coordination.TimeInNoteBounds` is stated as its precondition.
- Rounding is left out: float32 and float64 rounding, NaN and Inf outside the two places named above, and float-to-int conversions out of range. Values are `real`.
- The `Skill` base class is not part of this model. The history and upcoming objects are a `Window` record.
- The bit encoding of `osu.HitResult` is not part of this model. The judgement is a datatype of base result and addition.
- Hit-result bookkeeping that only feeds the display is left out: `lastHit`, `perObjectStats`, accuracy displays, death bubbles, the miss timeline and logging. The event that a result is shown is kept as a flag.
- Knockout settings such as `BubbleMinimumCombo` only affect logging and are left out. The settings file and `app/settings/gameplay.go` are a defaults table with no behaviour.
- Knockout.IsBroken: takes the player's name and requires it to be known; Go panics on a nil player for an unknown one. The overlay's map from a cursor to its player's name is not part of this model.
- Knockout.UpdateHealth: health comes from a map by player name. It does not come from the ruleset through the cursor's old index, which is not part of this model.
- NaitsirkMover.SetObjects: requires at least one object; Go indexes `objs[0]` and panics on an empty slice. The curve arrays are built from the objects' stacked positions. Stacking and mods are not part of this model; each object carries its positions.
- Cursor.SetPos: requires a rectangle of positive width and height when bouncing is on. With a zero-width range the Go loop does not terminate (`Cursor.ZeroWidthCycles`).
- StrainGraph.SectSize: requires a non-zero bar width. For a zero width Go divides by zero.
- StrainGraph.Progress: requires the map's end time to differ from its start time. The same holds for `StrainGraph.Update`.
- Coordination.AimDifficulty: requires a non-zero strain time. Go would divide by zero; the same precondition applies to `Coordination.StrainValue`.
- Coordination.PositionAtEnds: requires non-zero time spans, as do `Coordination.PositionAt`, `Coordination.Residual` and the two bracket lemmas.
- StoryboardLoop.NewLoopProcessor: requires at least three header fields. Go indexes `data[1]` and `data[2]` without checking.
- ScoreBar.Update: states the share bounds only for totals that fit in int64; `ScoreBar.OverflowedTotal` shows what happens beyond. The float32 rounding of the share is not modelled.
- HitResultsOverlay.AddResult: the ruleset's timing constants and the random drift factor are parameters. The sprite's texture lookup and scaling are not part of this model.
