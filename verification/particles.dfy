/** The particle-field background of the page (`initFxCanvas` in script.js):
    how many particles there are, how one frame moves, wraps and repels each
    particle, and which pairs are joined by a line and how opaque it is.

    Numbers are exact reals in place of JavaScript doubles, and `Math.hypot`
    is a parameter constrained by `IsHypot`. Canvas drawing is not modelled;
    a frame's lines are returned as data. */
module ParticleField {
  import opened Numeric

  const MinParticles: int := 60
  const MaxParticles: int := 120
  const Margin: real := 20.0
  const RepelRadius: real := 140.0
  const RepelStrength: real := 0.008
  const MaxDist: real := 120.0
  const MaxAlpha: real := 0.24

  datatype Particle = Particle(x: real, y: real, vx: real, vy: real, r: real)

  /** The field's own state: the viewport it was laid out for, the particle
      count fixed at start-up, and the particles. */
  datatype FieldState = FieldState(width: real, height: real, count: int, particles: seq<Particle>)

  /** A line between particles `i` and `j` drawn with opacity `alpha`. */
  datatype Line = Line(i: nat, j: nat, alpha: real)

  /** Five samples of `Math.random()` used to create one particle. */
  datatype Draw = Draw(ux: real, uy: real, uvx: real, uvy: real, ur: real)

  /** The range of one `Math.random()` sample: [0, 1). */
  predicate RandomSample(u: real) { 0.0 <= u < 1.0 }

  predicate UnitDraw(d: Draw) {
    RandomSample(d.ux) && RandomSample(d.uy) && RandomSample(d.uvx) && RandomSample(d.uvy) && RandomSample(d.ur)
  }

  /** The side condition of `Math.hypot(dx, dy) == d`. */
  predicate IsHypot(d: real, dx: real, dy: real) {
    d >= 0.0 && d * d == dx * dx + dy * dy
  }

  // ---------------------------------------------------------------- count

  /** The particle count, computed once from the viewport width at start-up:
      one particle per 12 CSS pixels, clamped to [60, 120]. */
  function ParticleCount(innerWidth: int): (n: int)
    ensures MinParticles <= n <= MaxParticles
    ensures MinParticles < n < MaxParticles ==> 12 * n <= innerWidth < 12 * n + 12
    ensures n == MinParticles <==> innerWidth < 12 * (MinParticles + 1)
    ensures n == MaxParticles <==> innerWidth >= 12 * MaxParticles
  {
    Min(MaxParticles, Max(MinParticles, innerWidth / 12))
  }

  lemma ParticleCountExamples()
    ensures ParticleCount(1920) == 120
    ensures ParticleCount(480) == 60
    ensures ParticleCount(1000) == 83
  {
  }

  lemma ParticleCountMonotone(w1: int, w2: int)
    requires w1 <= w2
    ensures ParticleCount(w1) <= ParticleCount(w2)
  {
  }

  // ---------------------------------------------------------------- resize

  /** One particle laid out from its random samples. */
  function Spawn(d: Draw, width: real, height: real): (p: Particle)
    requires UnitDraw(d) && width >= 0.0 && height >= 0.0
    ensures 0.0 <= p.x <= width && 0.0 <= p.y <= height
    ensures -0.275 <= p.vx < 0.275 && -0.275 <= p.vy < 0.275
    ensures 0.7 <= p.r < 2.7
  {
    var ux, uy := d.ux, d.uy;
    var x, y := ux * width, uy * height;
    assert 0.0 <= x <= width by { ScaleWithin(width, ux); }
    assert 0.0 <= y <= height by { ScaleWithin(height, uy); }
    Particle(x, y, (d.uvx - 0.5) * 0.55, (d.uvy - 0.5) * 0.55, d.ur * 2.0 + 0.7)
  }

  /** `resize()`: takes the new viewport size and regenerates the particles.
      It regenerates exactly the count fixed at start-up and never recomputes
      it from the new width. */
  function Resize(fs: FieldState, innerWidth: nat, innerHeight: nat, draws: seq<Draw>): (r: FieldState)
    requires |draws| == fs.count
    requires forall k :: 0 <= k < |draws| ==> UnitDraw(draws[k])
    ensures r.count == fs.count && |r.particles| == fs.count
    ensures r.width == innerWidth as real && r.height == innerHeight as real
    ensures forall k :: 0 <= k < |r.particles| ==>
              0.0 <= r.particles[k].x <= r.width && 0.0 <= r.particles[k].y <= r.height
  {
    var w, h := innerWidth as real, innerHeight as real;
    FieldState(w, h, fs.count, seq(|draws|, k requires 0 <= k < |draws| => Spawn(draws[k], w, h)))
  }

  /** Start-up: the count is computed from the initial width, then `resize()` runs. */
  function Setup(innerWidth: nat, innerHeight: nat, draws: seq<Draw>): (r: FieldState)
    requires |draws| == ParticleCount(innerWidth)
    requires forall k :: 0 <= k < |draws| ==> UnitDraw(draws[k])
    ensures r.count == ParticleCount(innerWidth) && |r.particles| == r.count
    ensures MinParticles <= |r.particles| <= MaxParticles
  {
    Resize(FieldState(0.0, 0.0, ParticleCount(innerWidth), []), innerWidth, innerHeight, draws)
  }

  /** A field started at width 1920 keeps 120 particles after the viewport is
      resized to 480, where a fresh start would have given 60. */
  lemma ResizeKeepsStartupCount(d1: seq<Draw>, d2: seq<Draw>)
    requires |d1| == 120 && |d2| == 120
    requires forall k :: 0 <= k < 120 ==> UnitDraw(d1[k]) && UnitDraw(d2[k])
    ensures Setup(1920, 1080, d1).count == 120
    ensures |Resize(Setup(1920, 1080, d1), 480, 800, d2).particles| == 120
    ensures ParticleCount(480) == 60
  {
  }

  // ---------------------------------------------------------------- one frame

  /** The four edge checks for one coordinate, applied in the source's order. */
  function WrapCoord(v: real, dim: real): (r: real)
    ensures dim >= 0.0 ==> -Margin <= r <= dim + Margin
    ensures -Margin <= v <= dim + Margin ==> r == v
    ensures v < -Margin ==> r == dim + Margin
    ensures -Margin <= v && dim + Margin < v ==> r == -Margin
  {
    var a := if v < -Margin then dim + Margin else v;
    if a > dim + Margin then -Margin else a
  }

  /** Wrapping twice is wrapping once. */
  lemma WrapIdempotent(v: real, dim: real)
    requires dim >= 0.0
    ensures WrapCoord(WrapCoord(v, dim), dim) == WrapCoord(v, dim)
  {
  }

  /** The first half of a frame for one particle: move by the velocity, then wrap. */
  function Advance(p: Particle, width: real, height: real): (q: Particle)
    ensures q.vx == p.vx && q.vy == p.vy && q.r == p.r
    ensures width >= 0.0 ==> -Margin <= q.x <= width + Margin
    ensures height >= 0.0 ==> -Margin <= q.y <= height + Margin
    ensures -Margin <= p.x + p.vx <= width + Margin ==> q.x == p.x + p.vx
    ensures -Margin <= p.y + p.vy <= height + Margin ==> q.y == p.y + p.vy
  {
    p.(x := WrapCoord(p.x + p.vx, width), y := WrapCoord(p.y + p.vy, height))
  }

  /** The factor by which the repulsion scales a particle's offset from the
      pointer, for a particle at distance `d`. */
  function RepelFactor(d: real): (f: real)
    requires d >= 0.0
    ensures d >= RepelRadius ==> f == 1.0
    ensures d < RepelRadius ==> 1.0 < f <= 1.0 + RepelStrength
    ensures d == 0.0 ==> f == 1.0 + RepelStrength
  {
    if d < RepelRadius then 1.0 + RepelStrength * ((RepelRadius - d) / RepelRadius) else 1.0
  }

  /** The pointer-repulsion nudge, with `d` the distance to the pointer. */
  function Repel(p: Particle, px: real, py: real, d: real): (q: Particle)
    requires IsHypot(d, p.x - px, p.y - py)
    ensures d >= RepelRadius ==> q == p
    ensures q.x - px == (p.x - px) * RepelFactor(d) && q.y - py == (p.y - py) * RepelFactor(d)
    ensures q.vx == p.vx && q.vy == p.vy && q.r == p.r
  {
    if d < RepelRadius then
      var push := (RepelRadius - d) / RepelRadius;
      p.(x := p.x + (p.x - px) * RepelStrength * push, y := p.y + (p.y - py) * RepelStrength * push)
    else p
  }

  /** The nudge never brings a particle closer to the pointer. */
  lemma RepelNeverCloser(p: Particle, px: real, py: real, d: real)
    requires IsHypot(d, p.x - px, p.y - py)
    ensures var q := Repel(p, px, py, d);
            (q.x - px) * (q.x - px) + (q.y - py) * (q.y - py) >= d * d
  {
    var q := Repel(p, px, py, d);
    var f := RepelFactor(d);
    var dx, dy := p.x - px, p.y - py;
    assert q.x - px == dx * f && q.y - py == dy * f;
    ScaledSquares(dx, dy, f);
  }

  /** Scaling an offset by a factor of at least 1 does not shrink its square length. */
  lemma ScaledSquares(dx: real, dy: real, f: real)
    requires f >= 1.0
    ensures (dx * f) * (dx * f) + (dy * f) * (dy * f) >= dx * dx + dy * dy
  {
    var s := dx * dx + dy * dy;
    assert (dx * f) * (dx * f) + (dy * f) * (dy * f) == (f * f) * s;
    assert s >= 0.0;
    assert f * f >= 1.0 by {
      assert f * f >= 1.0 * f;
    }
    assert (f * f) * s >= 1.0 * s;
  }

  /** One particle's update in a frame; `d` is the distance of the wrapped
      particle to the pointer. */
  function StepParticle(p: Particle, width: real, height: real, px: real, py: real, d: real): (q: Particle)
    requires IsHypot(d, Advance(p, width, height).x - px, Advance(p, width, height).y - py)
    ensures q.vx == p.vx && q.vy == p.vy && q.r == p.r
    ensures d >= RepelRadius && width >= 0.0 && height >= 0.0 ==>
              -Margin <= q.x <= width + Margin && -Margin <= q.y <= height + Margin
  {
    Repel(Advance(p, width, height), px, py, d)
  }

  /** The repulsion runs after the edge checks, so a particle on the margin
      next to the pointer ends the frame slightly outside it. */
  lemma RepelCanLeaveMargin()
    ensures IsHypot(20.0, Advance(Particle(-20.0, 50.0, 0.0, 0.0, 1.0), 100.0, 100.0).x - 0.0,
                    Advance(Particle(-20.0, 50.0, 0.0, 0.0, 1.0), 100.0, 100.0).y - 50.0)
    ensures StepParticle(Particle(-20.0, 50.0, 0.0, 0.0, 1.0), 100.0, 100.0, 0.0, 50.0, 20.0).x < -Margin
  {
  }

  /** The per-particle part of `tick`, over the whole field; `dists[k]` is
      particle `k`'s distance to the pointer after wrapping. */
  function TickParticles(fs: FieldState, px: real, py: real, dists: seq<real>): (r: FieldState)
    requires |dists| == |fs.particles|
    requires forall k :: 0 <= k < |dists| ==>
               IsHypot(dists[k], Advance(fs.particles[k], fs.width, fs.height).x - px,
                                 Advance(fs.particles[k], fs.width, fs.height).y - py)
    ensures r.width == fs.width && r.height == fs.height && r.count == fs.count
    ensures |r.particles| == |fs.particles|
    ensures forall k :: 0 <= k < |r.particles| ==>
              r.particles[k].vx == fs.particles[k].vx && r.particles[k].vy == fs.particles[k].vy
              && r.particles[k].r == fs.particles[k].r
  {
    var ps := seq(|dists|, k requires 0 <= k < |dists| =>
                StepParticle(fs.particles[k], fs.width, fs.height, px, py, dists[k]));
    fs.(particles := ps)
  }

  // ---------------------------------------------------------------- lines

  /** The opacity of a line between particles at distance `d`. */
  function Alpha(d: real): (a: real)
    ensures 0.0 <= d <= MaxDist ==> 0.0 <= a <= MaxAlpha
    ensures d == 0.0 ==> a == MaxAlpha
    ensures d == MaxDist ==> a == 0.0
  {
    (1.0 - d / MaxDist) * MaxAlpha
  }

  /** Closer pairs are drawn more opaquely. */
  lemma AlphaDecreasing(d1: real, d2: real)
    requires d1 < d2
    ensures Alpha(d1) > Alpha(d2)
  {
  }

  function PairDist(ps: seq<Particle>, hypot: (real, real) -> real, a: nat, b: nat): real
    requires a < |ps| && b < |ps|
  {
    hypot(ps[a].x - ps[b].x, ps[a].y - ps[b].y)
  }

  /** `hypot` behaves as `Math.hypot` on every pair the loop measures. */
  predicate HypotOnPairs(ps: seq<Particle>, hypot: (real, real) -> real) {
    forall a, b :: 0 <= a < b < |ps| ==>
      IsHypot(hypot(ps[a].x - ps[b].x, ps[a].y - ps[b].y), ps[a].x - ps[b].x, ps[a].y - ps[b].y)
  }

  /** The pair is close enough to be joined (the loop skips `dist > maxDist`). */
  predicate Close(ps: seq<Particle>, hypot: (real, real) -> real, a: nat, b: nat)
    requires a < |ps| && b < |ps|
  {
    PairDist(ps, hypot, a, b) <= MaxDist
  }

  function LineFor(ps: seq<Particle>, hypot: (real, real) -> real, a: nat, b: nat): Line
    requires a < |ps| && b < |ps|
  {
    Line(a, b, Alpha(PairDist(ps, hypot, a, b)))
  }

  /** A line the loop may emit: an unordered pair in index order, close
      enough, with the opacity of its distance. */
  predicate Drawn(ps: seq<Particle>, hypot: (real, real) -> real, l: Line) {
    l.i < l.j < |ps| && Close(ps, hypot, l.i, l.j) && l == LineFor(ps, hypot, l.i, l.j)
  }

  /** Lexicographic order on the index pairs of two lines. */
  predicate PairBefore(l1: Line, l2: Line) {
    l1.i < l2.i || (l1.i == l2.i && l1.j < l2.j)
  }

  /** A close pair is equivalent to a squared distance of at most 120 squared. */
  lemma CloseIffSquared(d: real, dx: real, dy: real)
    requires IsHypot(d, dx, dy)
    ensures d <= MaxDist <==> dx * dx + dy * dy <= MaxDist * MaxDist
  {
    if d <= MaxDist {
      assert d * d <= MaxDist * d <= MaxDist * MaxDist;
    } else {
      assert d * d > MaxDist * d > MaxDist * MaxDist;
    }
  }

  /** The inner loop of `connectParticles` for row `i`: appends, in order of
      `j`, a line for every close pair `(i, j)` with `i < j`. */
  method ConnectRow(ps: seq<Particle>, hypot: (real, real) -> real, i: nat, lines0: seq<Line>)
    returns (lines: seq<Line>)
    requires i < |ps|
    requires forall k :: 0 <= k < |lines0| ==> Drawn(ps, hypot, lines0[k]) && lines0[k].i < i
    requires forall k, l :: 0 <= k < l < |lines0| ==> PairBefore(lines0[k], lines0[l])
    ensures lines0 <= lines
    ensures forall k :: 0 <= k < |lines| ==> Drawn(ps, hypot, lines[k]) && lines[k].i <= i
    ensures forall b :: i < b < |ps| && Close(ps, hypot, i, b) ==> LineFor(ps, hypot, i, b) in lines
    ensures forall k, l :: 0 <= k < l < |lines| ==> PairBefore(lines[k], lines[l])
  {
    lines := lines0;
    var j := i + 1;
    while j < |ps|
      invariant i + 1 <= j <= |ps|
      invariant lines0 <= lines
      invariant forall k :: 0 <= k < |lines| ==>
                  Drawn(ps, hypot, lines[k]) && (lines[k].i < i || (lines[k].i == i && lines[k].j < j))
      invariant forall b :: i < b < j && Close(ps, hypot, i, b) ==> LineFor(ps, hypot, i, b) in lines
      invariant forall k, l :: 0 <= k < l < |lines| ==> PairBefore(lines[k], lines[l])
    {
      var dist := hypot(ps[i].x - ps[j].x, ps[i].y - ps[j].y);
      if dist <= MaxDist {
        lines := lines + [Line(i, j, Alpha(dist))];
      }
      j := j + 1;
    }
  }

  /** `connectParticles`: visits every unordered pair `(i, j)` with `i < j`
      in index order and emits a line for exactly the close ones. The lines
      come out strictly ordered by pair, so no pair is joined twice. */
  method ConnectParticles(ps: seq<Particle>, hypot: (real, real) -> real) returns (lines: seq<Line>)
    requires HypotOnPairs(ps, hypot)
    ensures forall k :: 0 <= k < |lines| ==> Drawn(ps, hypot, lines[k])
    ensures forall a, b :: 0 <= a < b < |ps| && Close(ps, hypot, a, b) ==> LineFor(ps, hypot, a, b) in lines
    ensures forall k, l :: 0 <= k < l < |lines| ==> PairBefore(lines[k], lines[l])
    ensures forall k :: 0 <= k < |lines| ==> 0.0 <= lines[k].alpha <= MaxAlpha
  {
    lines := [];
    var i := 0;
    while i < |ps|
      invariant 0 <= i <= |ps|
      invariant forall k :: 0 <= k < |lines| ==> Drawn(ps, hypot, lines[k]) && lines[k].i < i
      invariant forall a, b :: 0 <= a < i && a < b < |ps| && Close(ps, hypot, a, b) ==>
                  LineFor(ps, hypot, a, b) in lines
      invariant forall k, l :: 0 <= k < l < |lines| ==> PairBefore(lines[k], lines[l])
    {
      lines := ConnectRow(ps, hypot, i, lines);
      i := i + 1;
    }
    forall k | 0 <= k < |lines|
      ensures 0.0 <= lines[k].alpha <= MaxAlpha
    {
      assert Drawn(ps, hypot, lines[k]);
      assert PairDist(ps, hypot, lines[k].i, lines[k].j) >= 0.0;
    }
  }
}
