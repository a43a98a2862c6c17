/**
 * Lasers and the three particle effects: the mutable objects of
 * spaceinvaders_effects.py.
 *
 * Particles keep only what the game's bookkeeping depends on: where they
 * were spawned and their size, in hundredths of a pixel. Their random,
 * floating-point motion is not modelled.
 */
module Effects {
  import opened Defs
  import opened Geometry
  import opened Sequences

  // ---------------------------------------------------------------- lasers

  /** The observable state of a laser. */
  datatype LaserState = LaserState(x: int, y: int, active: bool)

  function LaserRect(cfg: Config, s: LaserState): Rect {
    Rect(s.x, s.y, cfg.laserWidth, cfg.laserHeight)
  }

  function InvaderRect(cfg: Config, p: Pos): Rect {
    Rect(p.x, p.y, cfg.invaderSize, cfg.invaderSize)
  }

  /** One upward step: y drops by the laser speed, and the laser switches off once y is negative. */
  function Moved(cfg: Config, s: LaserState): LaserState {
    var y := s.y - cfg.laserSpeed;
    LaserState(s.x, y, if y < 0 then false else s.active)
  }

  /** n successive steps. */
  function MovedTimes(cfg: Config, s: LaserState, n: nat): LaserState {
    if n == 0 then s else Moved(cfg, MovedTimes(cfg, s, n - 1))
  }

  /**
   * After n steps a laser has risen n * speed pixels, is never reactivated,
   * and after at least one step is still active exactly when it started
   * active and its y has not yet gone below 0.
   */
  lemma {:induction false} MovedTimesSpec(cfg: Config, s: LaserState, n: nat)
    requires cfg.Valid()
    ensures MovedTimes(cfg, s, n).x == s.x
    ensures MovedTimes(cfg, s, n).y == s.y - n * cfg.laserSpeed
    ensures MovedTimes(cfg, s, n).active <==> s.active && (n == 0 || s.y - n * cfg.laserSpeed >= 0)
  {
    if n > 0 {
      MovedTimesSpec(cfg, s, n - 1);
      var prev := MovedTimes(cfg, s, n - 1);
      assert s.y - n * cfg.laserSpeed == prev.y - cfg.laserSpeed;
      assert MovedTimes(cfg, s, n) == Moved(cfg, prev);

    }
  }

  /** Whether a laser in state s hits the invader whose top-left corner is p. */
  predicate Collides(cfg: Config, s: LaserState, p: Pos) {
    s.active && Collide(LaserRect(cfg, s), InvaderRect(cfg, p))
  }

  /**
   * An inactive laser hits nothing; an active one hits an invader exactly
   * when the laser's rectangle and the invader's square share a pixel
   * (touching edges do not).
   */
  lemma CollidesIffSharedPixel(cfg: Config, s: LaserState, p: Pos)
    requires cfg.Valid()
    ensures Collides(cfg, s, p) <==>
      s.active && exists px, py :: Covers(LaserRect(cfg, s), px, py) && Covers(InvaderRect(cfg, p), px, py)
  {
    CollideIffSharedPixel(LaserRect(cfg, s), InvaderRect(cfg, p));
  }

  class Laser {
    var x: int
    var y: int
    var active: bool

    /** A new shot is active at exactly its spawn position. */
    constructor (x0: int, y0: int)
      ensures x == x0 && y == y0 && active
    {
      x, y, active := x0, y0, true;
    }

    function State(): LaserState
      reads this
    {
      LaserState(x, y, active)
    }

    method Move(cfg: Config)
      modifies this
      ensures x == old(x) && y == old(y) - cfg.laserSpeed
      ensures active == (old(active) && y >= 0)
      ensures State() == Moved(cfg, old(State()))
    {
      y := y - cfg.laserSpeed;
      if y < 0 {
        active := false;
      }
    }

    function CheckCollision(cfg: Config, invaderX: int, invaderY: int): (hit: bool)
      reads this
      ensures !active ==> !hit
      ensures hit == Collides(cfg, State(), Pos(invaderX, invaderY))
    {
      if !active then false
      else Collide(Rect(x, y, cfg.laserWidth, cfg.laserHeight),
                   Rect(invaderX, invaderY, cfg.invaderSize, cfg.invaderSize))
    }
  }

  // ------------------------------------------------------------- particles

  /** A particle: where it was spawned and its size in hundredths of a pixel. */
  datatype Particle = Particle(origin: Pos, size: int)

  /** Explosion particles shrink by 0.1 pixel per move. */
  const ExplosionFade: nat := 10
  /** Victory and game-over particles shrink by 0.03 pixel per move. */
  const CelebrationFade: nat := 3

  /** One move of a particle: it shrinks by `fade` but never below 0; its origin is kept. */
  function Faded(p: Particle, fade: nat): (q: Particle)
    ensures q.origin == p.origin
    ensures q.size >= 0
    ensures q.size > 0 <==> p.size > fade
    ensures p.size >= 0 ==> q.size <= p.size
  {
    p.(size := if p.size - fade > 0 then p.size - fade else 0)
  }

  function FadeAll(ps: seq<Particle>, fade: nat): (qs: seq<Particle>)
    ensures |qs| == |ps|
    ensures forall i :: 0 <= i < |ps| ==> qs[i] == Faded(ps[i], fade)
  {
    seq(|ps|, i requires 0 <= i < |ps| => Faded(ps[i], fade))
  }

  /** Size > 0 for each particle: the condition of the comprehension that drops faded particles. */
  function Visible(ps: seq<Particle>): (keep: seq<bool>)
    ensures |keep| == |ps|
    ensures forall i :: 0 <= i < |ps| ==> (keep[i] <==> ps[i].size > 0)
  {
    seq(|ps|, i requires 0 <= i < |ps| => ps[i].size > 0)
  }

  /** Python's random.randint(lo, hi): some integer between lo and hi inclusive. */
  method RandInt(lo: int, hi: int) returns (n: int)
    requires lo <= hi
    ensures lo <= n <= hi
  {
    n :| lo <= n <= hi;
  }

  /** A fresh particle at origin whose size is a random whole number of pixels in [lo, hi]. */
  method NewParticle(origin: Pos, lo: int, hi: int) returns (p: Particle)
    requires lo <= hi
    ensures p.origin == origin
    ensures 100 * lo <= p.size <= 100 * hi && p.size % 100 == 0
  {
    var pixels := RandInt(lo, hi);
    p := Particle(origin, 100 * pixels);
  }

  // --------------------------------------------------------------- effects

  /** What every effect consists of: a countdown and its particles. */
  datatype EffectView = EffectView(duration: int, particles: seq<Particle>)

  /** The `is_active` property shared by every effect. */
  predicate Active(v: EffectView) {
    v.duration > 0
  }

  /**
   * Each effect's update lowers the countdown by one. Along any run of
   * updates from a countdown of D, the k-th view has countdown D - k, so the
   * effect is active after k updates exactly when k < D; in particular it
   * becomes inactive after exactly D updates.
   */
  lemma {:induction false} CountdownTrace(trace: seq<EffectView>)
    requires |trace| > 0
    requires forall k :: 0 <= k < |trace| - 1 ==> trace[k + 1].duration == trace[k].duration - 1
    ensures forall k :: 0 <= k < |trace| ==> trace[k].duration == trace[0].duration - k
    ensures forall k :: 0 <= k < |trace| ==> (Active(trace[k]) <==> k < trace[0].duration)
  {
    if |trace| > 1 {
      var n := |trace| - 1;
      var front := trace[..n];
      assert forall k :: 0 <= k < |front| ==> front[k] == trace[k];
      CountdownTrace(front);
      assert trace[n].duration == trace[n - 1].duration - 1;
    }
  }

  /** Where an explosion's particles start: the centre of the invader's square at (x, y). */
  function ExplosionCentre(cfg: Config, x: int, y: int): Pos {
    Pos(x + cfg.invaderSize / 2, y + cfg.invaderSize / 2)
  }

  /** One explosion update on the view: countdown minus one, every particle moved once. */
  function ExplosionStep(v: EffectView): EffectView {
    EffectView(v.duration - 1, FadeAll(v.particles, ExplosionFade))
  }

  function ExplosionSteps(v: EffectView, k: nat): EffectView {
    if k == 0 then v else ExplosionStep(ExplosionSteps(v, k - 1))
  }

  /**
   * After k updates an explosion has countdown D - k, still has every
   * particle (none is ever dropped), each particle has shrunk by k * 0.1
   * pixel but not below 0, and the explosion is active exactly when k < D.
   */
  lemma {:induction false} ExplosionStepsSpec(v: EffectView, k: nat)
    ensures ExplosionSteps(v, k).duration == v.duration - k
    ensures |ExplosionSteps(v, k).particles| == |v.particles|
    ensures forall i :: 0 <= i < |v.particles| ==>
      && ExplosionSteps(v, k).particles[i].origin == v.particles[i].origin
      && ExplosionSteps(v, k).particles[i].size ==
           if k == 0 then v.particles[i].size
           else if v.particles[i].size - k * ExplosionFade > 0 then v.particles[i].size - k * ExplosionFade
           else 0
    ensures Active(ExplosionSteps(v, k)) <==> k < v.duration
  {
    if k > 0 {
      ExplosionStepsSpec(v, k - 1);
    }
  }

  class Explosion {
    var particles: seq<Particle>
    var duration: int

    /** The state of a just-created explosion for the invader square at (x, y). */
    predicate SpawnedAt(cfg: Config, x: int, y: int)
      reads this
    {
      && duration == cfg.explosionDuration
      && |particles| == cfg.particleCount
      && forall p :: p in particles ==>
           p.origin == ExplosionCentre(cfg, x, y) && 200 <= p.size <= 400 && p.size % 100 == 0
    }

    constructor (cfg: Config, x: int, y: int)
      requires cfg.Valid()
      ensures SpawnedAt(cfg, x, y)
      ensures |particles| > 0 && Active(View())
    {
      var ps: seq<Particle> := [];
      while |ps| < cfg.particleCount
        invariant |ps| <= cfg.particleCount
        invariant forall p :: p in ps ==>
          p.origin == ExplosionCentre(cfg, x, y) && 200 <= p.size <= 400 && p.size % 100 == 0
      {
        var p := NewParticle(ExplosionCentre(cfg, x, y), 2, 4);
        ps := ps + [p];
      }
      particles := ps;
      duration := cfg.explosionDuration;
    }

    function View(): EffectView
      reads this
    {
      EffectView(duration, particles)
    }

    predicate IsActive()
      reads this
    {
      Active(View())
    }

    method Update()
      modifies this
      ensures View() == ExplosionStep(old(View()))
    {
      duration := duration - 1;
      var i := 0;
      while i < |particles|
        invariant 0 <= i <= |particles| == |old(particles)|
        invariant duration == old(duration) - 1
        invariant forall j :: 0 <= j < i ==> particles[j] == Faded(old(particles)[j], ExplosionFade)
        invariant forall j :: i <= j < |particles| ==> particles[j] == old(particles)[j]
      {
        particles := particles[i := Faded(particles[i], ExplosionFade)];
        i := i + 1;
      }
      assert particles == FadeAll(old(particles), ExplosionFade);
    }
  }

  // ------------------------------------------------- victory and game over

  /** The two end-of-game effects, which differ only in their constants and spawn region. */
  datatype Kind = Victory | GameOver

  function Duration(cfg: Config, kind: Kind): int {
    match kind
    case Victory => cfg.victoryDuration
    case GameOver => cfg.gameOverDuration
  }

  function BatchSize(cfg: Config, kind: Kind): int {
    match kind
    case Victory => cfg.victoryParticleCount
    case GameOver => cfg.gameOverParticleCount
  }

  /** Victory particles spawn in the lower half of the screen, game-over particles in the upper half. */
  predicate InRegion(cfg: Config, kind: Kind, p: Pos) {
    && 0 <= p.x <= cfg.screenWidth
    && match kind
       case Victory => cfg.screenHeight / 2 <= p.y <= cfg.screenHeight
       case GameOver => 0 <= p.y <= cfg.screenHeight / 2
  }

  /** A newly spawned celebration particle: in the region, 3 to 6 whole pixels big. */
  predicate IsSpawned(cfg: Config, kind: Kind, p: Particle) {
    InRegion(cfg, kind, p.origin) && 300 <= p.size <= 600 && p.size % 100 == 0
  }

  /** One batch of spawned particles. */
  predicate IsBatch(cfg: Config, kind: Kind, batch: seq<Particle>) {
    |batch| == BatchSize(cfg, kind) && forall p :: p in batch ==> IsSpawned(cfg, kind, p)
  }

  /** Whether an update that brings the countdown to `duration` spawns a batch. */
  predicate SpawnsAt(duration: int) {
    duration % 10 == 0
  }

  /**
   * One update of a victory or game-over effect on its view, given the batch
   * the update spawned (empty unless the new countdown is a multiple of 10):
   * countdown minus one, the batch appended, every particle moved once, and
   * the particles that have faded to size 0 dropped.
   */
  function TerminalStep(v: EffectView, spawned: seq<Particle>): EffectView {
    var moved := FadeAll(v.particles + spawned, CelebrationFade);
    EffectView(v.duration - 1, Select(moved, Visible(moved)))
  }

  /**
   * After an update every kept particle has positive size, at most one batch
   * was added, every spawned particle survives its first move, and the
   * particles kept are the old ones (moved) that have not faded out, in order.
   */
  lemma TerminalStepSpec(cfg: Config, kind: Kind, v: EffectView, spawned: seq<Particle>)
    requires SpawnsAt(v.duration - 1) ==> IsBatch(cfg, kind, spawned)
    requires !SpawnsAt(v.duration - 1) ==> spawned == []
    ensures TerminalStep(v, spawned).duration == v.duration - 1
    ensures forall p :: p in TerminalStep(v, spawned).particles ==> p.size > 0
    ensures |TerminalStep(v, spawned).particles| <=
              |v.particles| + (if SpawnsAt(v.duration - 1) then BatchSize(cfg, kind) else 0)
    ensures forall p :: p in spawned ==> Faded(p, CelebrationFade) in TerminalStep(v, spawned).particles
    ensures forall q :: q in TerminalStep(v, spawned).particles <==>
      q in FadeAll(v.particles + spawned, CelebrationFade) && q.size > 0
  {
    var moved := FadeAll(v.particles + spawned, CelebrationFade);
    SelectMembers(moved, Visible(moved));
    forall p | p in spawned
      ensures Faded(p, CelebrationFade) in TerminalStep(v, spawned).particles
    {
      var j :| 0 <= j < |spawned| && spawned[j] == p;
      assert (v.particles + spawned)[|v.particles| + j] == p;
    }
  }

  /**
   * `after` is what one update makes of `before`, with `spawned` the batch
   * it created: exactly one batch when the new countdown is a multiple of
   * 10, none otherwise.
   */
  predicate IsUpdate(cfg: Config, kind: Kind, before: EffectView, spawned: seq<Particle>, after: EffectView) {
    && (SpawnsAt(before.duration - 1) ==> IsBatch(cfg, kind, spawned))
    && (!SpawnsAt(before.duration - 1) ==> spawned == [])
    && after == TerminalStep(before, spawned)
  }

  class TerminalEffect {
    const kind: Kind
    var particles: seq<Particle>
    var duration: int

    constructor (cfg: Config, k: Kind)
      requires cfg.Valid()
      ensures kind == k && duration == Duration(cfg, k) && Active(View())
      ensures IsBatch(cfg, k, particles)
    {
      kind := k;
      particles := [];
      duration := Duration(cfg, k);
      new;
      ghost var batch := CreateParticles(cfg);
    }

    function View(): EffectView
      reads this
    {
      EffectView(duration, particles)
    }

    predicate IsActive()
      reads this
    {
      Active(View())
    }

    /** Appends one batch of particles at random points of the effect's region. */
    method CreateParticles(cfg: Config) returns (ghost batch: seq<Particle>)
      requires cfg.Valid()
      modifies this
      ensures IsBatch(cfg, kind, batch)
      ensures particles == old(particles) + batch && duration == old(duration)
    {
      batch := [];
      var n := 0;
      while n < BatchSize(cfg, kind)
        invariant n == |batch| <= BatchSize(cfg, kind)
        invariant particles == old(particles) + batch && duration == old(duration)
        invariant forall p :: p in batch ==> IsSpawned(cfg, kind, p)
      {
        var x := RandInt(0, cfg.screenWidth);
        var y;
        if kind == Victory {
          y := RandInt(cfg.screenHeight / 2, cfg.screenHeight);
        } else {
          y := RandInt(0, cfg.screenHeight / 2);
        }
        var p := NewParticle(Pos(x, y), 3, 6);
        particles := particles + [p];
        batch := batch + [p];
        n := n + 1;
      }
    }

    method Update(cfg: Config) returns (ghost spawned: seq<Particle>)
      requires cfg.Valid()
      modifies this
      ensures IsUpdate(cfg, kind, old(View()), spawned, View())
    {
      duration := duration - 1;
      spawned := [];
      if SpawnsAt(duration) {
        spawned := CreateParticles(cfg);
      }
      var i := 0;
      while i < |particles|
        invariant 0 <= i <= |particles| == |old(particles) + spawned|
        invariant duration == old(duration) - 1
        invariant forall j :: 0 <= j < i ==> particles[j] == Faded((old(particles) + spawned)[j], CelebrationFade)
        invariant forall j :: i <= j < |particles| ==> particles[j] == (old(particles) + spawned)[j]
      {
        particles := particles[i := Faded(particles[i], CelebrationFade)];
        i := i + 1;
      }
      assert particles == FadeAll(old(particles) + spawned, CelebrationFade);
      particles := Select(particles, Visible(particles));
    }
  }
}
