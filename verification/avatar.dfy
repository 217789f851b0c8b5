/** The scroll-driven path follow of the 3D figure (student-3d.js).

    Positions are three.js `Vector3`s modelled as triples of exact reals,
    with `lerp(a, b, t) = a + (b - a) * t`. `Math.sin` is a parameter with
    range [-1, 1]. An out-of-range read of the waypoint array throws in the
    source: `GetPointAt` is then `None`, and a frame that hits it stops the
    animation loop with the progress it has already stored, until the page
    is hidden and shown again. */
module AvatarPath {
  import opened Wrappers
  import opened Numeric

  datatype Vec3 = Vec3(x: real, y: real, z: real)

  /** The animation state kept between frames. */
  datatype AvatarState = AvatarState(currentPos: Vec3, targetPos: Vec3, targetProgress: real, currentProgress: real)

  /** What one frame computes: the next state and the facing direction
      (towards a point slightly further along the path). */
  datatype Frame = Frame(state: AvatarState, direction: Vec3)

  const ProgressSmoothing: real := 0.06
  const PositionSmoothing: real := 0.08
  const LookAheadStep: real := 0.014

  // ---------------------------------------------------------------- vectors

  function Sub(a: Vec3, b: Vec3): Vec3 { Vec3(a.x - b.x, a.y - b.y, a.z - b.z) }

  /** `Vector3.lerp`: moves `a` the fraction `t` of the way to `b`. */
  function Lerp(a: Vec3, b: Vec3, t: real): (r: Vec3)
    ensures t == 0.0 ==> r == a
    ensures t == 1.0 ==> r == b
    ensures InUnit(t) ==> Between(a.x, b.x, r.x) && Between(a.y, b.y, r.y) && Between(a.z, b.z, r.z)
  {
    LerpCoordBetween(a.x, b.x, t);
    LerpCoordBetween(a.y, b.y, t);
    LerpCoordBetween(a.z, b.z, t);
    Vec3(a.x + (b.x - a.x) * t, a.y + (b.y - a.y) * t, a.z + (b.z - a.z) * t)
  }

  lemma LerpCoordBetween(a: real, b: real, t: real)
    ensures InUnit(t) ==> Between(a, b, a + (b - a) * t)
  {
    if InUnit(t) {
      var k := b - a;
      ScaleWithin(k, t);
    }
  }

  // ---------------------------------------------------------------- path

  /** The waypoints of the route, first to last. */
  const Path: seq<Vec3> := [
    Vec3(2.2, 1.3, 0.0),
    Vec3(1.05, 0.7, 0.0),
    Vec3(-0.2, 0.2, 0.0),
    Vec3(1.3, -0.4, 0.0),
    Vec3(-1.5, -1.1, 0.0)
  ]

  /** `path.length - 1`. */
  const MaxSegment: int := 4

  /** The segment index `Math.min(Math.floor(progress * maxSegment), maxSegment - 1)`,
      found by comparing the scaled progress with the segment boundaries;
      `SegmentIndexIsClampedFloor` shows it is the source's formula. */
  function SegmentIndex(p: real): (idx: int)
    ensures idx <= MaxSegment - 1
    ensures 0.0 <= p <= 1.0 ==> 0 <= idx
    ensures p < 0.0 <==> idx < 0
    ensures idx < MaxSegment - 1 ==> idx as real <= p * 4.0 < idx as real + 1.0
    ensures idx == MaxSegment - 1 ==> p * 4.0 >= idx as real
  {
    if p < 0.0 then (p * 4.0).Floor
    else if p * 4.0 < 1.0 then 0
    else if p * 4.0 < 2.0 then 1
    else if p * 4.0 < 3.0 then 2
    else MaxSegment - 1
  }

  lemma SegmentIndexIsClampedFloor(p: real)
    ensures SegmentIndex(p) == Min((p * 4.0).Floor, MaxSegment - 1)
  {
  }

  /** The blend inside the segment: `scaled - idx`. */
  function Blend(p: real): (t: real)
    ensures InUnit(p) ==> InUnit(t)
    ensures p >= 0.0 ==> t >= 0.0
  {
    p * 4.0 - SegmentIndex(p) as real
  }

  /** `getPointAt(progress)`. A negative progress gives segment index -1 or
      less, whose waypoint is undefined: the source throws there. Progress
      above 1 stays on the last segment and extrapolates beyond its end. */
  function GetPointAt(p: real): (r: Option<Vec3>)
    ensures r.Some? <==> p >= 0.0
    ensures r.Some? ==> r.value == Lerp(Path[SegmentIndex(p)], Path[SegmentIndex(p) + 1], Blend(p))
    ensures InUnit(p) ==> r.Some? && InHull(r.value)
  {
    var idx := SegmentIndex(p);
    if idx < 0 then None
    else
      var v := Lerp(Path[idx], Path[idx + 1], Blend(p));
      if InUnit(p) then
        SegmentInHull(idx, Blend(p));
        Some(v)
      else Some(v)
  }

  /** The bounding box of the waypoints. */
  predicate InHull(v: Vec3) {
    -1.5 <= v.x <= 2.2 && -1.1 <= v.y <= 1.3 && v.z == 0.0
  }

  lemma SegmentInHull(idx: int, t: real)
    requires 0 <= idx < MaxSegment && InUnit(t)
    ensures InHull(Lerp(Path[idx], Path[idx + 1], t))
  {
  }

  /** Progress `k/4` lands exactly on waypoint `k`: the first waypoint at 0,
      the middle one at 0.5 and the last at 1. */
  lemma WaypointsAtQuarters(k: int)
    requires 0 <= k <= MaxSegment
    ensures GetPointAt(k as real / 4.0) == Some(Path[k])
  {
    var p := k as real / 4.0;
    assert p * 4.0 == k as real;
    assert (p * 4.0).Floor == k;
    if k < MaxSegment {
      assert SegmentIndex(p) == k && Blend(p) == 0.0;
    } else {
      assert SegmentIndex(p) == MaxSegment - 1 && Blend(p) == 1.0;
    }
  }

  lemma PathEnds()
    ensures GetPointAt(0.0) == Some(Vec3(2.2, 1.3, 0.0))
    ensures GetPointAt(0.5) == Some(Vec3(-0.2, 0.2, 0.0))
    ensures GetPointAt(1.0) == Some(Vec3(-1.5, -1.1, 0.0))
  {
    WaypointsAtQuarters(0);
    WaypointsAtQuarters(2);
    WaypointsAtQuarters(4);
  }

  // ---------------------------------------------------------------- scroll

  /** `updateTargetProgress`: scroll offset over scrollable extent, or 0 when
      the page does not scroll. Not clamped: an offset outside
      [0, scrollable] gives a progress outside [0, 1]. */
  function TargetProgress(scrollHeight: int, innerHeight: int, scrollY: real): (r: real)
    ensures scrollHeight - innerHeight <= 0 ==> r == 0.0
    ensures scrollHeight - innerHeight > 0 ==> r * (scrollHeight - innerHeight) as real == scrollY
    ensures 0.0 <= scrollY <= (scrollHeight - innerHeight) as real ==> InUnit(r)
    ensures scrollHeight - innerHeight > 0 && scrollY == (scrollHeight - innerHeight) as real ==> r == 1.0
    ensures scrollHeight - innerHeight > 0 && scrollY < 0.0 ==> r < 0.0
  {
    var scrollable := scrollHeight - innerHeight;
    if scrollable <= 0 then 0.0
    else
      var s := scrollable as real;
      RatioFacts(scrollY, s);
      scrollY / s
  }

  lemma RatioFacts(y: real, s: real)
    requires s > 0.0
    ensures (y / s) * s == y
    ensures 0.0 <= y <= s ==> InUnit(y / s)
    ensures y == s ==> y / s == 1.0
    ensures y < 0.0 ==> y / s < 0.0
  {
  }

  /** Half-way down the page, the figure heads for the middle waypoint. */
  lemma HalfScrollTargetsMiddleWaypoint(scrollHeight: int, innerHeight: int)
    requires scrollHeight - innerHeight > 0
    ensures TargetProgress(scrollHeight, innerHeight, (scrollHeight - innerHeight) as real / 2.0) == 0.5
    ensures GetPointAt(0.5) == Some(Path[2])
  {
    WaypointsAtQuarters(2);
  }

  // ---------------------------------------------------------------- smoothing

  /** `currentProgress += (targetProgress - currentProgress) * 0.06`. */
  function SmoothProgress(c: real, g: real): (r: real)
    ensures Between(c, g, r)
    ensures Abs(g - r) == 0.94 * Abs(g - c)
    ensures InUnit(c) && InUnit(g) ==> InUnit(r)
  {
    c + (g - c) * ProgressSmoothing
  }

  function Pow(b: real, n: nat): real {
    if n == 0 then 1.0 else b * Pow(b, n - 1)
  }

  /** `n` frames of progress smoothing towards a fixed target. */
  function SmoothProgressN(c: real, g: real, n: nat): (r: real)
    ensures Between(c, g, r)
    ensures InUnit(c) && InUnit(g) ==> InUnit(r)
    decreases n
  {
    if n == 0 then c
    else
      var c1 := SmoothProgress(c, g);
      var r := SmoothProgressN(c1, g, n - 1);
      BetweenTrans(c, g, c1, r);
      r
  }

  lemma BetweenTrans(c: real, g: real, c1: real, r: real)
    requires Between(c, g, c1) && Between(c1, g, r)
    ensures Between(c, g, r)
  {
  }

  /** With the target held fixed, the remaining gap shrinks geometrically:
      after `n` frames it is 0.94^n times the original gap. */
  lemma {:induction false} ProgressGapDecays(c: real, g: real, n: nat)
    ensures g - SmoothProgressN(c, g, n) == Pow(0.94, n) * (g - c)
    decreases n
  {
    if n > 0 {
      var c1 := SmoothProgress(c, g);
      ProgressGapDecays(c1, g, n - 1);
      assert g - c1 == 0.94 * (g - c);
      assert Pow(0.94, n - 1) * (0.94 * (g - c)) == (0.94 * Pow(0.94, n - 1)) * (g - c);
    }
  }

  /** `currentPos.lerp(targetPos, 0.08)`: each coordinate's remaining gap to
      the target shrinks to 92%; a position at the target stays there. */
  function SmoothPosition(cur: Vec3, target: Vec3): (r: Vec3)
    ensures target.x - r.x == 0.92 * (target.x - cur.x)
    ensures target.y - r.y == 0.92 * (target.y - cur.y)
    ensures target.z - r.z == 0.92 * (target.z - cur.z)
    ensures cur == target ==> r == cur
  {
    Lerp(cur, target, PositionSmoothing)
  }

  /** `Math.min(currentProgress + 0.014, 1)`: never past the end of the path. */
  function LookAhead(c: real): (r: real)
    ensures r <= 1.0
    ensures c + LookAheadStep < 1.0 ==> r == c + LookAheadStep
    ensures c + LookAheadStep >= 1.0 ==> r == 1.0
    ensures InUnit(c) ==> InUnit(r) && c <= r
  {
    if c + LookAheadStep < 1.0 then c + LookAheadStep else 1.0
  }

  /** The floor glow's opacity for a sine value `s`. */
  function GlowOpacity(s: real): (o: real)
    requires -1.0 <= s <= 1.0
    ensures 0.16 <= o <= 0.32
    ensures s == -1.0 ==> o == 0.16
    ensures s == 1.0 ==> o == 0.32
  {
    0.16 + (s + 1.0) * 0.08
  }

  // ---------------------------------------------------------------- frames

  /** The values declared at lines 156-159 of student-3d.js: both positions
      at the first waypoint and both progress values 0. The first call of the
      scroll handler (line 174) then sets the target from the page. */
  const InitialState := AvatarState(Path[0], Path[0], 0.0, 0.0)

  predicate ProgressInUnit(st: AvatarState) {
    InUnit(st.targetProgress) && InUnit(st.currentProgress)
  }

  lemma InitialStateAtFirstWaypoint()
    ensures InitialState.currentPos == Vec3(2.2, 1.3, 0.0) && InitialState.targetPos == InitialState.currentPos
    ensures InitialState.currentProgress == 0.0 && InitialState.targetProgress == 0.0
    ensures ProgressInUnit(InitialState)
  {
  }

  /** The scroll (and resize) handler. */
  function OnScroll(st: AvatarState, scrollHeight: int, innerHeight: int, scrollY: real): (r: AvatarState)
    ensures r.currentPos == st.currentPos && r.targetPos == st.targetPos
    ensures r.currentProgress == st.currentProgress
    ensures 0.0 <= scrollY <= (scrollHeight - innerHeight) as real ==> InUnit(r.targetProgress)
  {
    st.(targetProgress := TargetProgress(scrollHeight, innerHeight, scrollY))
  }

  /** What a frame leaves behind. `Ran` when the frame completed. `Threw`
      when the waypoint lookup threw: the smoothed progress has already been
      stored by then, while both positions keep their old values. */
  datatype Outcome = Ran(state: AvatarState) | Threw(state: AvatarState)

  /** The state update of one frame of `tick`: smooth the progress, look up
      the path point for it, and move the position towards that point. The
      lookup throws exactly when the smoothed progress is negative. */
  function Follow(st: AvatarState): (r: Outcome)
    ensures r.state.currentProgress == SmoothProgress(st.currentProgress, st.targetProgress)
    ensures r.state.targetProgress == st.targetProgress
    ensures r.Threw? <==> r.state.currentProgress < 0.0
    ensures r.Threw? ==> r.state.currentPos == st.currentPos && r.state.targetPos == st.targetPos
    ensures r.Ran? ==> Some(r.state.targetPos) == GetPointAt(r.state.currentProgress)
    ensures r.Ran? ==> r.state.currentPos == SmoothPosition(st.currentPos, r.state.targetPos)
    ensures st.currentProgress >= 0.0 && st.targetProgress >= 0.0 ==> r.Ran? && r.state.currentProgress >= 0.0
    ensures ProgressInUnit(st) ==> r.Ran? && ProgressInUnit(r.state) && InHull(r.state.targetPos)
  {
    var c := SmoothProgress(st.currentProgress, st.targetProgress);
    match GetPointAt(c)
    case None => Threw(st.(currentProgress := c))
    case Some(target) => Ran(AvatarState(SmoothPosition(st.currentPos, target), target, st.targetProgress, c))
  }

  /** What one call of `tick` does: either it renders a frame and schedules
      the next one, or it throws, leaving the stored state behind and no
      frame scheduled. */
  datatype TickOutcome = Rendered(frame: Frame) | Stopped(stored: AvatarState)

  /** One frame of `tick` along the path: the state update, then the facing
      direction towards the look-ahead point. The look-ahead lookup never
      fails once the first one has succeeded. */
  function Tick(st: AvatarState): (r: TickOutcome)
    ensures r.Rendered? <==> Follow(st).Ran?
    ensures r.Rendered? ==> r.frame.state == Follow(st).state
    ensures r.Stopped? ==> r.stored == Follow(st).state
  {
    match Follow(st)
    case Threw(stored) => Stopped(stored)
    case Ran(next) =>
      match GetPointAt(LookAhead(next.currentProgress))
      case None => Stopped(next)
      case Some(ahead) => Rendered(Frame(next, Sub(ahead, next.currentPos)))
  }

  /** The state after `n` frames without scrolling in between, repeating the
      state update of `Tick` (the facing direction does not feed back into
      the state); the first frame that throws ends the run with the state it
      stored. */
  function Ticks(st: AvatarState, n: nat): (r: Outcome)
    ensures n == 0 ==> r == Ran(st)
    ensures r.state.targetProgress == st.targetProgress
    ensures r.Threw? ==> n > 0 && r.state.currentProgress < 0.0
    decreases n
  {
    if n == 0 then Ran(st)
    else match Follow(st)
      case Threw(stored) => Threw(stored)
      case Ran(next) => Ticks(next, n - 1)
  }

  /** `n` consecutive calls of `tick` all render a frame. */
  predicate TicksRender(st: AvatarState, n: nat)
    decreases n
  {
    n == 0 || (Tick(st).Rendered? && TicksRender(Tick(st).frame.state, n - 1))
  }

  /** `Ticks` runs through exactly when `n` calls of `Tick` all render; it
      then ends in the state the last of them rendered. */
  lemma {:induction false} TicksMatchTick(st: AvatarState, n: nat)
    ensures Ticks(st, n).Ran? <==> TicksRender(st, n)
    ensures n > 0 && Tick(st).Rendered? ==> Ticks(st, n) == Ticks(Tick(st).frame.state, n - 1)
    ensures n > 0 && Tick(st).Stopped? ==> Ticks(st, n) == Threw(Tick(st).stored)
    decreases n
  {
    if n > 0 {
      match Tick(st)
      case Stopped(_) =>
      case Rendered(f) => TicksMatchTick(f.state, n - 1);
    }
  }

  /** With both progress values in [0, 1], any number of frames run without
      the waypoint read failing, and both values stay in [0, 1]. */
  lemma {:induction false} TicksStayOnPath(st: AvatarState, n: nat)
    requires ProgressInUnit(st)
    ensures Ticks(st, n).Ran?
    ensures ProgressInUnit(Ticks(st, n).state)
    decreases n
  {
    if n > 0 {
      var next := Follow(st).state;
      TicksStayOnPath(next, n - 1);
    }
  }

  /** Over frames without scrolling, from any non-negative start and target
      (a target above 1 included), no frame throws and the progress is the
      `n`-fold smoothing of its start value towards the fixed target. */
  lemma {:induction false} TicksFollowSmoothing(st: AvatarState, n: nat)
    requires st.currentProgress >= 0.0 && st.targetProgress >= 0.0
    ensures Ticks(st, n).Ran?
    ensures Ticks(st, n).state.currentProgress == SmoothProgressN(st.currentProgress, st.targetProgress, n)
    decreases n
  {
    if n > 0 {
      var next := Follow(st).state;
      TicksFollowSmoothing(next, n - 1);
    }
  }

  /** Elastic overscroll at the bottom of the page gives a target above 1;
      the frames still run, extrapolating beyond the last waypoint. */
  lemma BottomOverscrollKeepsTicking(n: nat)
    ensures OnScroll(InitialState, 2000, 1000, 1010.0).targetProgress == 1.01
    ensures Ticks(OnScroll(InitialState, 2000, 1000, 1010.0), n).Ran?
  {
    TicksFollowSmoothing(OnScroll(InitialState, 2000, 1000, 1010.0), n);
  }

  // ---------------------------------------------------------------- finding

  /** A negative scroll offset (elastic overscroll at the top of the page)
      gives a negative target, and the very next frame reads the waypoint
      before the first one. */
  lemma NegativeScrollBreaksTick()
    ensures TargetProgress(2000, 1000, -10.0) == -0.01
    ensures Tick(OnScroll(InitialState, 2000, 1000, -10.0))
              == Stopped(InitialState.(targetProgress := -0.01, currentProgress := -0.0006))
  {
  }

  /** A frame, restarted by showing the page again, throws exactly when
      `0.94 * c + 0.06 * g < 0`, where `c` is the stored progress and `g`
      the target: it recovers only once the page has been scrolled down to
      a target of about 15.7 times the stored shortfall. */
  lemma RestartThrowsIff(st: AvatarState)
    ensures Tick(st).Stopped? <==> 0.94 * st.currentProgress + 0.06 * st.targetProgress < 0.0
  {
    assert SmoothProgress(st.currentProgress, st.targetProgress)
      == 0.94 * st.currentProgress + 0.06 * st.targetProgress;
  }

  /** With progress and target both at or below 0, one of them below, a
      restarted frame throws again and stores a negative progress. Scrolling
      back to the very top (target 0) therefore does not free the figure. */
  lemma AboveTopKeepsThrowing(st: AvatarState)
    requires st.targetProgress <= 0.0 && st.currentProgress <= 0.0
    requires st.targetProgress + st.currentProgress < 0.0
    ensures Tick(st).Stopped?
    ensures Tick(st).stored.currentProgress < 0.0
  {
    RestartThrowsIff(st);
  }

  /** After the throw of `NegativeScrollBreaksTick`, settling back at offset 0
      leaves every restarted frame throwing; scrolling down 10 px (target
      0.01) lets the next restarted frame render. */
  lemma ScrollBackToTopStaysFrozen()
    ensures Tick(OnScroll(InitialState, 2000, 1000, -10.0)).Stopped?
    ensures Tick(OnScroll(Tick(OnScroll(InitialState, 2000, 1000, -10.0)).stored, 2000, 1000, 0.0)).Stopped?
    ensures Tick(OnScroll(Tick(OnScroll(InitialState, 2000, 1000, -10.0)).stored, 2000, 1000, 10.0)).Rendered?
  {
    NegativeScrollBreaksTick();
    var stored := InitialState.(targetProgress := -0.01, currentProgress := -0.0006);
    RestartThrowsIff(OnScroll(stored, 2000, 1000, 0.0));
    RestartThrowsIff(OnScroll(stored, 2000, 1000, 10.0));
  }

  /** The evidently intended scroll mapping: the same ratio, clamped to [0, 1]. */
  function ClampedTargetProgress(scrollHeight: int, innerHeight: int, scrollY: real): (r: real)
    ensures InUnit(r)
    ensures InUnit(TargetProgress(scrollHeight, innerHeight, scrollY)) ==>
              r == TargetProgress(scrollHeight, innerHeight, scrollY)
    ensures TargetProgress(scrollHeight, innerHeight, scrollY) < 0.0 ==> r == 0.0
    ensures TargetProgress(scrollHeight, innerHeight, scrollY) > 1.0 ==> r == 1.0
  {
    var t := TargetProgress(scrollHeight, innerHeight, scrollY);
    if t < 0.0 then 0.0 else if t > 1.0 then 1.0 else t
  }

  /** The scroll handler with the clamped mapping. */
  function OnScrollClamped(st: AvatarState, scrollHeight: int, innerHeight: int, scrollY: real): (r: AvatarState)
    ensures ProgressInUnit(st) ==> ProgressInUnit(r)
    ensures r.currentProgress == st.currentProgress && r.currentPos == st.currentPos
  {
    st.(targetProgress := ClampedTargetProgress(scrollHeight, innerHeight, scrollY))
  }

  /** With the clamped mapping, no scroll offset can stop the animation:
      every frame after any scroll event finds its waypoints. */
  lemma ClampedScrollKeepsTicking(st: AvatarState, scrollHeight: int, innerHeight: int, scrollY: real, n: nat)
    requires ProgressInUnit(st)
    ensures Ticks(OnScrollClamped(st, scrollHeight, innerHeight, scrollY), n).Ran?
  {
    TicksStayOnPath(OnScrollClamped(st, scrollHeight, innerHeight, scrollY), n);
  }
}
