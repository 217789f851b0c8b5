# Portfolio page effects, modelled in Dafny

The portfolio page's scripts are mostly DOM, canvas and three.js plumbing.
This project models the small sequential rules inside them as pure functions
over `int` and exact `real`, and proves what those rules guarantee:

- **Typewriter** (`typewriter.dfy`, script.js `runTyping`): the phrase cycler
  whose state is `(phraseIndex, charIndex, deleting)`. One call is one `Step`.
  It returns the next state, the text written to the heading, and the delay it
  schedules (1200, 35 or 60 ms). The timer itself is not modelled.
- **Particle field** (`particles.dfy`, script.js `initFxCanvas`): the particle
  count, the regeneration on resize, and one frame's update. A frame's update
  is the move, the four edge checks and the pointer-repulsion nudge. Also here
  is the `connectParticles` pair loop with its line opacity.
- **Section highlighter** (`highlighter.dfy`, script.js `sectionObserver`):
  clear all links, then set one, for each intersecting entry of a batch.
- **Avatar path follow** (`avatar.dfy`, student-3d.js): the five-waypoint
  path and `getPointAt`, the scroll-to-progress mapping, the two exponential
  smoothing steps, the look-ahead clamp and the floor-glow opacity.

`wrappers.dfy` holds an `Option` type. `numeric.dfy` holds the shared numeric
helpers: integer `Min`/`Max`, `Abs`, the unit interval `InUnit`, `Between`,
and the lemma `ScaleWithin`.

Modelling choices:

- JavaScript doubles are exact `real`s. Every numeric bound holds modulo
  IEEE-754 rounding.
- `Math.hypot` is a parameter constrained by `IsHypot(d, dx, dy)`, which
  means `d >= 0` and `d * d == dx * dx + dy * dy`. In `ConnectParticles` it is
  a function parameter with that condition on every pair.
- `Math.sin` is a parameter `s` with `-1 <= s <= 1`.
- `Math.random` is a sequence of samples in [0, 1), one `Draw` per particle.
- A three.js `Vector3` is a triple of reals, and `lerp(a, b, t) = a + (b - a) * t`.
- The navigation links are their `href`s in document order. Their "active"
  classes are a parallel sequence of flags. `document.querySelector` is the
  first link with a matching `href`. That holds for ids that can sit inside
  the quoted selector `a[href="#…"]` unchanged, such as the four plain-word
  ids the page observes (script.js:89); an id containing `"`, `\` or a line
  break would break or escape the selector in the source.
- Reading `path[-1]` makes `getPointAt` throw. The model represents the
  lookup's failure as `None`. A frame that hits it is `Threw` (or
  `Stopped`), carrying the state the frame stored before the throw: the
  smoothed progress is already written (student-3d.js:180), while both
  positions keep their old values. No next frame is requested then. The loop
  stands still until the page is hidden and shown again, whose handler
  (student-3d.js:217-223) requests a frame that starts from that stored state.
- `SegmentIndex` compares the scaled progress with the segment boundaries
  rather than calling `Floor` for non-negative progress.
  `SegmentIndexIsClampedFloor` proves it equal to the source's
  `Math.min(Math.floor(progress * 4), 3)`.

In three places the code does less than one might assume; the model follows the code:

- The particle count is computed once, at start-up. `resize()` regenerates that
  many particles and does not recompute the count (`ResizeKeepsStartupCount`).
- The scroll progress is not clamped to [0, 1] (`TargetProgress`,
  `NegativeScrollBreaksTick`). Above 1, from elastic overscroll at the bottom,
  the frames keep running and extrapolate past the last waypoint
  (`BottomOverscrollKeepsTicking`); below 0 they throw.
- The repulsion nudge runs after the edge checks. So after a full frame a
  particle can lie slightly outside `[-20, dim + 20]` (`RepelCanLeaveMargin`).
  Only the state right after the edge checks is within bounds.

## Model

| member | source | states |
|---|---|---|
| Typewriter.Step | script.js:19-41 | one call keeps the phrase index in range; from a valid state (all phrases non-empty) it reaches a valid state, and the text shown is the prefix of the phrase of length `charIndex`; the delay is one of 1200, 35, 60 |
| Typewriter.TypingStepAddsOne | script.js:23-30 | while typing, `charIndex` grows by exactly 1 on the same phrase; deletion turns on exactly when the phrase is complete, with delay 1200, otherwise delay 60 |
| Typewriter.DeletingStepRemovesOne | script.js:31-40 | while deleting, `charIndex` shrinks by exactly 1 with delay 35; on reaching 0 deletion turns off, the phrase index advances modulo the number of phrases, and the delay is 60 |
| Typewriter.Run | script.js:19-41 | any number of consecutive calls keeps the phrase index in range and preserves the reachable-state invariant |
| Typewriter.RunAdditive | script.js:19-41 | running `a` calls and then `b` calls is running `a + b` calls |
| Typewriter.TypingPhase | script.js:23-30 | from any point of the typing phase, `|phrase| - c` calls reach the full phrase with deletion on |
| Typewriter.DeletingPhase | script.js:31-37 | from `c` characters while deleting, `c` calls reach the start of the next phrase, wrapping to 0 |
| Typewriter.PhraseCycle | script.js:19-41 | typing and deleting one phrase takes `2 * |phrase|` calls and ends at the start of the next phrase in order |
| Typewriter.SlicePrefix | script.js:25 | `slice(0, end)` yields a prefix of the phrase, of length `end` when `end` is in range |
| Typewriter.TitlePhrasesNonEmpty | script.js:9-13 | the page's three phrases are non-empty, of lengths 25, 31 and 41 |
| Typewriter.ThreePhraseCycle | script.js:15-41 | with three non-empty phrases, the cycler starting at (0, 0, typing) visits phrases 1 and 2 in order and returns to its initial state |
| Typewriter.TitlePhrasesCycle | script.js:9-41 | for the page's phrases: phrase 1 starts after 50 calls, phrase 2 after 112, and after 194 calls the cycler is back in its initial state |
| ParticleField.ParticleCount | script.js:157 | the count lies in [60, 120]; strictly inside that range it is the floor of width/12; it is 60 exactly for widths below 732 and 120 exactly from width 1440 |
| ParticleField.ParticleCountExamples | script.js:157 | width 1920 gives 120, width 480 gives 60, width 1000 gives 83 |
| ParticleField.ParticleCountMonotone | script.js:157 | a wider viewport never gives fewer particles |
| ParticleField.Spawn | script.js:169-175 | with unit random samples a new particle lies inside the viewport, each velocity component is in [-0.275, 0.275), and the radius is in [0.7, 2.7) |
| ParticleField.Resize | script.js:159-176 | resize regenerates exactly the start-up count of particles, all inside the new viewport, and keeps the count |
| ParticleField.Setup | script.js:157-176 | at start-up the field holds `ParticleCount(width)` particles, between 60 and 120 |
| ParticleField.ResizeKeepsStartupCount | script.js:157-169 | a field started at width 1920 still has 120 particles after a resize to width 480 |
| ParticleField.WrapCoord | script.js:217-220 | after the edge checks a coordinate lies in `[-20, dim + 20]` for `dim >= 0`; one already in range is unchanged; one below goes to `dim + 20`; one above goes to `-20` |
| ParticleField.WrapIdempotent | script.js:217-220 | applying the edge checks to an already wrapped coordinate changes nothing |
| ParticleField.Advance | script.js:213-220 | moving and wrapping keeps velocity and radius, lands within the margin band, and is plain movement when the moved particle is in range |
| ParticleField.RepelFactor | script.js:222-227 | the offset scale is 1 at distance at least 140 and lies in (1, 1.008] closer in, reaching 1.008 at distance 0 |
| ParticleField.Repel | script.js:222-227 | a particle at distance at least 140 is untouched; otherwise its offset from the pointer is scaled by `RepelFactor(d)`; velocity and radius are kept |
| ParticleField.RepelNeverCloser | script.js:222-227 | after the nudge the squared distance to the pointer is at least the squared distance before it |
| ParticleField.StepParticle | script.js:213-227 | a frame keeps velocity and radius, and a particle far from the pointer ends the frame inside the margin band |
| ParticleField.RepelCanLeaveMargin | script.js:213-227 | a particle at x = -20 next to the pointer ends the frame below -20, so the band holds only between the edge checks and the nudge |
| ParticleField.TickParticles | script.js:213-228 | a frame keeps the viewport, the count, the number of particles, and each particle's velocity and radius |
| ParticleField.Alpha | script.js:187 | within distance 120 a line's opacity lies in [0, 0.24]; it is 0.24 at distance 0 and 0 at distance 120 |
| ParticleField.AlphaDecreasing | script.js:187 | closer pairs get strictly more opaque lines |
| ParticleField.CloseIffSquared | script.js:182-185 | a pair is drawn exactly when its squared distance is at most 120 squared |
| ParticleField.ConnectRow | script.js:181-194 | the inner loop keeps earlier lines, adds a line for every close pair `(i, j)` with `j > i`, only drawable lines, and keeps pair order |
| ParticleField.ConnectParticles | script.js:178-196 | every line joins a pair `i < j` at distance at most 120 with opacity `(1 - d/120) * 0.24`; every such pair gets a line; lines are strictly ordered by pair, so no pair is joined twice; every opacity is in [0, 0.24] |
| SectionHighlighter.FirstLink | script.js:82 | the match is the first link whose `href` equals the target, and none exists exactly when no link has that `href` |
| SectionHighlighter.HandleEntry | script.js:79-84 | a non-intersecting entry changes nothing; an intersecting one leaves exactly the first matching link active, or none when no link matches |
| SectionHighlighter.LastIntersecting | script.js:79-80 | the entry picked is an intersecting member of the batch, and there is none exactly when no entry intersects |
| SectionHighlighter.HandleBatch | script.js:78-85 | a batch without intersecting entries changes nothing; otherwise only the last intersecting entry decides which link is active |
| SectionHighlighter.BatchLeavesAtMostOneActive | script.js:79-84 | after a batch with an intersecting entry at most one link is active |
| SectionHighlighter.BatchLastWins | script.js:79-84 | when the last intersecting section has a link, that link is active and no other, whatever intersected earlier in the batch |
| SectionHighlighter.LastIsAt | script.js:79-80 | the entry at the last intersecting position is the one the batch settles on |
| SectionHighlighter.BatchesCompose | script.js:78-85 | two callback batches in a row act like one batch over both |
| AvatarPath.Lerp | student-3d.js:166 | `lerp` at 0 is the start, at 1 is the end, and for `t` in [0, 1] each coordinate lies between the two ends |
| AvatarPath.SegmentIndex | student-3d.js:162-164 | the index is at most 3, is non-negative for progress in [0, 1], is negative exactly for negative progress, and is the segment containing the scaled progress |
| AvatarPath.SegmentIndexIsClampedFloor | student-3d.js:162-164 | the index equals `min(floor(4p), 3)` |
| AvatarPath.Blend | student-3d.js:165 | the blend lies in [0, 1] for progress in [0, 1] |
| AvatarPath.GetPointAt | student-3d.js:161-167 | the lookup fails exactly for negative progress; otherwise it interpolates between waypoints `idx` and `idx + 1`; for progress in [0, 1] the point lies in the waypoints' bounding box |
| AvatarPath.SegmentInHull | student-3d.js:148-154 | every point of a segment lies in the waypoints' bounding box |
| AvatarPath.WaypointsAtQuarters | student-3d.js:148-167 | progress `k/4` gives exactly waypoint `k`, for k = 0..4 |
| AvatarPath.PathEnds | student-3d.js:148-167 | progress 0 gives (2.2, 1.3, 0), progress 0.5 gives (-0.2, 0.2, 0), progress 1 gives (-1.5, -1.1, 0) |
| AvatarPath.TargetProgress | student-3d.js:169-172 | progress is 0 when the page cannot scroll; otherwise progress times the scrollable extent is the offset; it is in [0, 1] for offsets in range, 1 at the bottom, and negative for a negative offset |
| AvatarPath.HalfScrollTargetsMiddleWaypoint | student-3d.js:161-172 | half-way down a scrollable page the target progress is 0.5, whose path point is waypoint 2 |
| AvatarPath.SmoothProgress | student-3d.js:180 | the smoothed progress lies between the current value and the target, the remaining gap is 0.94 of the old one, and [0, 1] is preserved |
| AvatarPath.SmoothProgressN | student-3d.js:180 | repeated smoothing never overshoots the target and preserves [0, 1] |
| AvatarPath.ProgressGapDecays | student-3d.js:180 | after `n` frames with a fixed target, the gap is 0.94^n times the original gap |
| AvatarPath.SmoothPosition | student-3d.js:183 | each coordinate's gap to the target shrinks to 92%, and a position at the target stays there |
| AvatarPath.LookAhead | student-3d.js:185 | the look-ahead progress is the progress plus 0.014 while that stays below 1, and 1 otherwise; for progress in [0, 1] it is in [0, 1] and not behind the current progress |
| AvatarPath.GlowOpacity | student-3d.js:201 | for any sine value in [-1, 1] the glow opacity lies in [0.16, 0.32], reaching both ends |
| AvatarPath.InitialStateAtFirstWaypoint | student-3d.js:156-159 | both positions start at the first waypoint (2.2, 1.3, 0) and both progress values start at 0 |
| AvatarPath.OnScroll | student-3d.js:169-175 | a scroll event changes only the target progress, which is in [0, 1] for an offset in range |
| AvatarPath.Follow | student-3d.js:179-183 | a frame's update always stores the smoothed progress and keeps the target; it throws exactly when that progress is negative, and then leaves both positions as they were; otherwise the target position is the path point for the progress and the position moves 8% towards it; with non-negative progress values it never throws, and with values in [0, 1] it keeps them in [0, 1] |
| AvatarPath.Tick | student-3d.js:179-186 | a call renders exactly when its state update runs through, because the look-ahead lookup never fails after the first one succeeded; when it throws, it leaves behind the state the update stored |
| AvatarPath.Ticks | student-3d.js:179-183 | `n` frames without scrolling repeat the state update of `Tick` (the facing direction does not feed back); the target never changes, and a run that throws ends with a negative stored progress |
| AvatarPath.TicksMatchTick | student-3d.js:179-186 | `Ticks` runs through exactly when `n` consecutive calls of `Tick` all render, and otherwise ends in the state the first throwing call stored |
| AvatarPath.TicksStayOnPath | student-3d.js:179-185 | with both progress values in [0, 1], any number of frames run without a failing lookup and keep both values in [0, 1] |
| AvatarPath.TicksFollowSmoothing | student-3d.js:179-183 | from any non-negative progress and target, including a target above 1, `n` frames without scrolling never throw and the progress is the `n`-fold smoothing towards the fixed target |
| AvatarPath.BottomOverscrollKeepsTicking | student-3d.js:169-183 | a scroll offset 10 px past the bottom of a page with 1000 px to scroll gives target 1.01, and the frames still run |
| AvatarPath.NegativeScrollBreaksTick | student-3d.js:161-182 | a scroll offset of -10 on a page with 1000 px to scroll gives target -0.01, and the next frame throws, leaving progress -0.0006 stored and the positions unchanged |
| AvatarPath.RestartThrowsIff | student-3d.js:179-182 | a frame, including one restarted after the page is shown again, throws exactly when 0.94 times the stored progress plus 0.06 times the target is negative |
| AvatarPath.AboveTopKeepsThrowing | student-3d.js:179-182 | with stored progress and target both at or below 0 and not both 0, a restarted frame throws again and stores a negative progress, so a target of exactly 0 does not free the figure |
| AvatarPath.ScrollBackToTopStaysFrozen | student-3d.js:169-182 | after the throw at offset -10, scrolling back to offset 0 leaves the restarted frame throwing, while offset 10 (target 0.01) lets it render |
| AvatarPath.ClampedTargetProgress | student-3d.js:169-172 | the corrected mapping lies in [0, 1], agrees with the source's ratio wherever that is in [0, 1], and is 0 below and 1 above |
| AvatarPath.OnScrollClamped | student-3d.js:169-175 | with the corrected mapping a scroll event keeps both progress values in [0, 1] |
| AvatarPath.ClampedScrollKeepsTicking | student-3d.js:169-185 | with the corrected mapping, frames after any scroll event never fail |

## Left out

- The three.js scene is left out. That covers meshes, materials, lights, camera, renderer and resize of the viewport (student-3d.js:18-146, 207-215). These are library calls with no logic of their own.
- The `requestAnimationFrame`, `visibilitychange` and `setTimeout` lifecycles are left out, as is the resize debounce (script.js:243-255). These are timer and event scheduling. Only the delays a typewriter step returns are modelled.
- Canvas drawing is left out: `clearRect`, `arc`, strokes, gradients and `drawPointerPulse` (script.js:198-208, 229-232). `ConnectParticles` returns its lines as data instead of stroking them.
- The canvas backing size and the device-pixel-ratio transform in `resize()` (script.js:160-167) are left out. They only size the drawing surface.
- The random particle values are not modelled beyond their ranges. The generator itself is replaced by given samples in [0, 1).
- The clipboard button, the year label, the pointer tracker's CSS writes and the glow opacity toggles are left out (script.js:45-61, 94-115). They are DOM side effects.
- Card tilt is left out (script.js:117-139). It is DOM geometry and CSS transform strings.
- The reveal observer is left out (script.js:63-75). It only adds a class and stops observing.
- The absent-element guards are left out (`if (!typingTarget) return;`, the missing canvas or mount). They switch a whole effect off before it starts.
- The reduced-motion and small-screen checks are left out for the same reason.
- Which sections get observed is left out (script.js:89-92). The highlighter takes its entries as given.
- The sine-driven idle motions are left out: bobbing, limb, ring and laptop rotations (student-3d.js:188-199). They are transcendental float computations.
- The yaw `atan2` is left out. `Tick` returns the facing direction but not the angle.
- Follow: the model's frames stop at the first throw. The later restart by the page-visibility handler is not modelled as a frame sequence; `RestartThrowsIff` states what one restarted frame does.
- Tick: models only the path-following lines of the frame (progress, position, look-ahead direction), not the idle motions or the render call.
- TickParticles: states what a frame keeps (viewport, count, velocities, radii). Where each particle ends up is stated per particle by `StepParticle`, `Advance` and `Repel`.
- IEEE-754 rounding is left out. The model uses exact reals.
- Strings are sequences of Unicode scalar values, while JavaScript's `length` and `slice` count UTF-16 code units. The two agree on the page's phrases, which are ASCII. They differ for phrases with characters outside the Basic Multilingual Plane, which the typewriter would cut in half.

## Findings

| source | as written | input that shows it | evidently intended | confidence | as-written member | corrected member |
|---|---|---|---|---|---|---|
| student-3d.js:171 | `targetProgress = scrollY / scrollable`, not clamped; a negative `scrollY` gives a negative target, the smoothed progress follows it below 0, `getPointAt` computes segment index -1 and reads `path[-1]`, which is undefined, so `clone()` throws inside the animation callback after the progress -0.0006 was stored, so no next frame is requested; hiding and showing the page restarts the loop from that stored progress `c`, and a restarted frame throws again while `0.94·c + 0.06·g < 0` for the target `g`; settling back at the top (target 0) keeps it frozen, and only scrolling down far enough that `0.94·c + 0.06·g ≥ 0` and then hiding and showing the page again gets the figure moving | `scrollHeight - innerHeight = 1000`, `scrollY = -10` (elastic overscroll at the top of the page): target -0.01, next frame's progress -0.0006, segment index -1 | the progress clamped to [0, 1]: the lookup caps the segment index at the top (student-3d.js:164) and the look-ahead caps its progress at 1 (student-3d.js:185), so the path is meant to be read on [0, 1] only | medium, not executed | AvatarPath.NegativeScrollBreaksTick | AvatarPath.ClampedScrollKeepsTicking |

The corrected mapping is `ClampedTargetProgress`, installed by
`OnScrollClamped`. The frame-invariant lemma `TicksStayOnPath` holds for
any state whose progress values lie in [0, 1], and `TicksFollowSmoothing` for
any state whose progress values are non-negative. `OnScrollClamped` keeps a
state inside [0, 1]. `TargetProgress` and `OnScroll` stay
as the code is written.
