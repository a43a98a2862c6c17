/**
 * The per-tick game logic of spaceinvaders_util.py: resolving lasers
 * against invaders, ageing explosions, building and lowering the invader
 * formation, and the victory / game-over state machine.
 *
 * The Python functions change the caller's invader and explosion lists in
 * place; here those lists are passed in and their new contents returned.
 */
module Util {
  import opened Defs
  import opened Sequences
  import opened Grid
  import opened Effects

  // ------------------------------------------------------- update_lasers

  /** The index of the first invader that laser state s hits, or |invaders| when it hits none. */
  function FirstHit(cfg: Config, s: LaserState, invaders: seq<Pos>): (k: nat)
    ensures k <= |invaders|
  {
    if |invaders| == 0 then 0
    else if Collides(cfg, s, invaders[0]) then 0
    else 1 + FirstHit(cfg, s, invaders[1..])
  }

  /** FirstHit is the first index of a colliding invader: none before it collides, and it does. */
  lemma {:induction false} FirstHitSpec(cfg: Config, s: LaserState, invaders: seq<Pos>)
    ensures forall j :: 0 <= j < FirstHit(cfg, s, invaders) ==> !Collides(cfg, s, invaders[j])
    ensures FirstHit(cfg, s, invaders) < |invaders| ==> Collides(cfg, s, invaders[FirstHit(cfg, s, invaders)])
  {
    if |invaders| > 0 && !Collides(cfg, s, invaders[0]) {
      FirstHitSpec(cfg, s, invaders[1..]);
      forall j | 0 < j < FirstHit(cfg, s, invaders)
        ensures !Collides(cfg, s, invaders[j])
      {
        assert invaders[j] == invaders[1..][j - 1];
      }
    }
  }

  /** Conversely, an index before which nothing collides and at which something does (or the end) is FirstHit. */
  lemma FirstHitAt(cfg: Config, s: LaserState, invaders: seq<Pos>, k: nat)
    requires k <= |invaders|
    requires forall j :: 0 <= j < k ==> !Collides(cfg, s, invaders[j])
    requires k < |invaders| ==> Collides(cfg, s, invaders[k])
    ensures FirstHit(cfg, s, invaders) == k
  {
    FirstHitSpec(cfg, s, invaders);
  }

  /**
   * The outcome of a pass: the lasers' new states (one per laser), the
   * invaders left, and the positions of the invaders hit, in the order the
   * explosions for them were appended.
   */
  datatype Resolution = Resolution(lasers: seq<LaserState>, invaders: seq<Pos>, hits: seq<Pos>)

  /**
   * What the pass does with one laser: an inactive laser is left alone; an
   * active one moves, and if it then hits an invader it switches off and the
   * first invader it hits is removed from the list.
   */
  function StepLaser(cfg: Config, s: LaserState, invaders: seq<Pos>): Resolution
  {
    if !s.active then Resolution([s], invaders, [])
    else
      var m := Moved(cfg, s);
      var k := FirstHit(cfg, m, invaders);
      if k == |invaders| then Resolution([m], invaders, [])
      else Resolution([m.(active := false)], Without(invaders, k), [invaders[k]])
  }

  /**
   * The pass over the first n lasers, in list order: the pass over the first
   * n - 1 of them, then laser n - 1 against the invaders that pass left.
   */
  function Resolve(cfg: Config, ls: seq<LaserState>, n: nat, invaders: seq<Pos>): Resolution
    requires n <= |ls|
  {
    if n == 0 then Resolution([], invaders, [])
    else
      var before := Resolve(cfg, ls, n - 1, invaders);
      var last := StepLaser(cfg, ls[n - 1], before.invaders);
      Resolution(before.lasers + last.lasers, last.invaders, before.hits + last.hits)
  }

  /** `before` was active, survived its move, and ended inactive: it was stopped by a hit. */
  predicate StoppedByHit(cfg: Config, before: LaserState, after: LaserState) {
    before.active && Moved(cfg, before).active && !after.active
  }

  /** How many of the first n lasers were stopped by a hit. */
  function CountStopped(cfg: Config, before: seq<LaserState>, after: seq<LaserState>, n: nat): nat
    requires n <= |before| && n <= |after|
  {
    if n == 0 then 0
    else CountStopped(cfg, before, after, n - 1) + (if StoppedByHit(cfg, before[n - 1], after[n - 1]) then 1 else 0)
  }

  /**
   * One laser: an inactive one is neither moved nor tested. An active one
   * moves up by the laser speed; it removes an invader exactly when one
   * collides with it after the move, and then it is the first such invader,
   * the remaining invaders are the others in their order, one explosion
   * position (that invader's corner) is recorded and the laser is off.
   * Otherwise nothing is removed and the laser keeps the state the move gave it.
   */
  lemma StepLaserSpec(cfg: Config, s: LaserState, invaders: seq<Pos>)
    ensures var r := StepLaser(cfg, s, invaders);
      && |r.lasers| == 1 && |r.hits| <= 1 && |r.invaders| + |r.hits| == |invaders|
      && (!s.active ==> r == Resolution([s], invaders, []))
      && (s.active ==> r.lasers[0].x == s.x && r.lasers[0].y == s.y - cfg.laserSpeed)
      && (s.active ==>
            (r.hits == [] <==> forall j :: 0 <= j < |invaders| ==> !Collides(cfg, Moved(cfg, s), invaders[j])))
      && (r.hits == [] ==> r.invaders == invaders && r.lasers[0] == (if s.active then Moved(cfg, s) else s))
      && (r.hits != [] ==>
            var k := FirstHit(cfg, Moved(cfg, s), invaders);
            && s.active && k < |invaders|
            && Collides(cfg, Moved(cfg, s), invaders[k])
            && (forall j :: 0 <= j < k ==> !Collides(cfg, Moved(cfg, s), invaders[j]))
            && r.hits == [invaders[k]]
            && r.invaders == Without(invaders, k)
            && !r.lasers[0].active)
  {
    if s.active {
      var m := Moved(cfg, s);
      var k := FirstHit(cfg, m, invaders);
      FirstHitSpec(cfg, m, invaders);
    }
  }

  /**
   * What the pass may do to one laser: an inactive laser is unchanged; an
   * active one is moved up by exactly the laser speed, keeps its x, and is
   * still active afterwards only if the move left it on screen.
   */
  predicate LaserOutcome(cfg: Config, before: LaserState, after: LaserState) {
    && (!before.active ==> after == before)
    && (before.active ==> after.x == before.x && after.y == before.y - cfg.laserSpeed)
    && (after.active ==> before.active && Moved(cfg, before).active)
  }

  /**
   * The part of StepLaserSpec the pass lemmas need: one new state that is a
   * LaserOutcome of the old one, stopped by a hit exactly when an invader was hit.
   */
  lemma StepLaserOutcome(cfg: Config, s: LaserState, invaders: seq<Pos>)
    ensures |StepLaser(cfg, s, invaders).lasers| == 1
    ensures LaserOutcome(cfg, s, StepLaser(cfg, s, invaders).lasers[0])
    ensures StoppedByHit(cfg, s, StepLaser(cfg, s, invaders).lasers[0]) <==> StepLaser(cfg, s, invaders).hits != []
  {
    if s.active {
      FirstHitSpec(cfg, Moved(cfg, s), invaders);
    }
  }

  /** The pass gives one new state per laser, each related to the old one by LaserOutcome. */
  lemma {:induction false} ResolveLasers(cfg: Config, ls: seq<LaserState>, n: nat, invaders: seq<Pos>)
    requires n <= |ls|
    ensures |Resolve(cfg, ls, n, invaders).lasers| == n
    ensures forall i :: 0 <= i < n ==> LaserOutcome(cfg, ls[i], Resolve(cfg, ls, n, invaders).lasers[i])
  {
    if n > 0 {
      var before := Resolve(cfg, ls, n - 1, invaders);
      var last := StepLaser(cfg, ls[n - 1], before.invaders);
      StepLaserOutcome(cfg, ls[n - 1], before.invaders);
      ResolveLasers(cfg, ls, n - 1, invaders);
      var r := Resolve(cfg, ls, n, invaders).lasers;
      forall i | 0 <= i < n
        ensures LaserOutcome(cfg, ls[i], r[i])
      {
        if i < n - 1 {
          assert r[i] == before.lasers[i];
        } else {
          assert r[i] == last.lasers[0];
        }
      }
    }
  }

  /** The invaders still on screen and the invaders hit, together. */
  ghost function Pool(r: Resolution): multiset<Pos> {
    multiset(r.invaders) + multiset(r.hits)
  }

  /**
   * No invader is lost or duplicated: the invaders left and the invaders
   * hit together are the invaders on entry (as a multiset).
   */
  lemma {:induction false} ResolveInvaders(cfg: Config, ls: seq<LaserState>, n: nat, invaders: seq<Pos>)
    requires n <= |ls|
    ensures Pool(Resolve(cfg, ls, n, invaders)) == multiset(invaders)
  {
    if n > 0 {
      ResolveInvaders(cfg, ls, n - 1, invaders);
      ResolveStepInvaders(cfg, ls, n, invaders);
    }
  }

  /** The same count: each invader is either still on screen or hit, once. */
  lemma {:induction false} ResolveCount(cfg: Config, ls: seq<LaserState>, n: nat, invaders: seq<Pos>)
    requires n <= |ls|
    ensures |Resolve(cfg, ls, n, invaders).invaders| + |Resolve(cfg, ls, n, invaders).hits| == |invaders|
  {
    if n > 0 {
      ResolveCount(cfg, ls, n - 1, invaders);
      var before := Resolve(cfg, ls, n - 1, invaders);
      var last := StepLaser(cfg, ls[n - 1], before.invaders);
      assert |last.invaders| + |last.hits| == |before.invaders|;
    }
  }

  /** Laser n - 1 moves at most one invader from the remaining list to the hit list. */
  lemma ResolveStepInvaders(cfg: Config, ls: seq<LaserState>, n: nat, invaders: seq<Pos>)
    requires 0 < n <= |ls|
    ensures Pool(Resolve(cfg, ls, n, invaders)) == Pool(Resolve(cfg, ls, n - 1, invaders))
  {
    var before := Resolve(cfg, ls, n - 1, invaders);
    var last := StepLaser(cfg, ls[n - 1], before.invaders);
    StepLaserInvaders(cfg, ls[n - 1], before.invaders);
    ChainHits(last.invaders, last.hits, before.invaders, before.hits);
  }

  /** One laser keeps the union of the invaders it leaves and the invaders it hits. */
  lemma StepLaserInvaders(cfg: Config, s: LaserState, invaders: seq<Pos>)
    ensures multiset(StepLaser(cfg, s, invaders).invaders) + multiset(StepLaser(cfg, s, invaders).hits)
              == multiset(invaders)
  {
    if s.active {
      var k := FirstHit(cfg, Moved(cfg, s), invaders);
      if k < |invaders| {
        MultisetWithout(invaders, k);
      }
    }
  }

  /** Moving the hits of a pass onto the earlier hits keeps the union of remaining and hit invaders. */
  lemma ChainHits<T>(left: seq<T>, hit: seq<T>, mid: seq<T>, hitBefore: seq<T>)
    requires multiset(left) + multiset(hit) == multiset(mid)
    ensures multiset(left) + multiset(hitBefore + hit) == multiset(mid) + multiset(hitBefore)
  {
    assert multiset(hitBefore + hit) == multiset(hitBefore) + multiset(hit);
  }

  /**
   * Each explosion belongs to one laser: the number of invaders hit equals
   * the number of lasers that were on screen after their move and were
   * switched off by a hit.
   */
  lemma {:induction false} ResolveHits(cfg: Config, ls: seq<LaserState>, n: nat, invaders: seq<Pos>)
    requires n <= |ls|
    ensures |Resolve(cfg, ls, n, invaders).lasers| == n
    ensures |Resolve(cfg, ls, n, invaders).hits| == CountStopped(cfg, ls, Resolve(cfg, ls, n, invaders).lasers, n)
  {
    ResolveLength(cfg, ls, n, invaders);
    if n > 0 {
      ResolveHits(cfg, ls, n - 1, invaders);
      ResolveHitsStep(cfg, ls, n, invaders);
    }
  }

  /** The pass over n lasers gives n new states. */
  lemma {:induction false} ResolveLength(cfg: Config, ls: seq<LaserState>, n: nat, invaders: seq<Pos>)
    requires n <= |ls|
    ensures |Resolve(cfg, ls, n, invaders).lasers| == n
  {
    if n > 0 {
      ResolveLength(cfg, ls, n - 1, invaders);
      StepLaserOutcome(cfg, ls[n - 1], Resolve(cfg, ls, n - 1, invaders).invaders);
    }
  }

  /** Laser n - 1 adds one hit exactly when it is stopped by one, to both sides of ResolveHits. */
  lemma ResolveHitsStep(cfg: Config, ls: seq<LaserState>, n: nat, invaders: seq<Pos>)
    requires 0 < n <= |ls|
    ensures |Resolve(cfg, ls, n - 1, invaders).lasers| == n - 1 && |Resolve(cfg, ls, n, invaders).lasers| == n
    ensures var last := StepLaser(cfg, ls[n - 1], Resolve(cfg, ls, n - 1, invaders).invaders);
      && |Resolve(cfg, ls, n, invaders).hits| == |Resolve(cfg, ls, n - 1, invaders).hits| + |last.hits|
      && CountStopped(cfg, ls, Resolve(cfg, ls, n, invaders).lasers, n)
         == CountStopped(cfg, ls, Resolve(cfg, ls, n - 1, invaders).lasers, n - 1) + |last.hits|
  {
    ResolveLength(cfg, ls, n - 1, invaders);
    ResolveLength(cfg, ls, n, invaders);
    var before := Resolve(cfg, ls, n - 1, invaders);
    var last := StepLaser(cfg, ls[n - 1], before.invaders);
    StepLaserOutcome(cfg, ls[n - 1], before.invaders);
    assert |last.hits| <= 1;
    var r := Resolve(cfg, ls, n, invaders);
    assert r.lasers[n - 1] == last.lasers[0];
    CountStoppedPrefix(cfg, ls, before.lasers, last.lasers, n - 1);
  }

  /** Appending new states after the first n does not change CountStopped over the first n. */
  lemma {:induction false} CountStoppedPrefix(cfg: Config, before: seq<LaserState>, a: seq<LaserState>, c: seq<LaserState>, n: nat)
    requires n <= |before| && n <= |a|
    ensures CountStopped(cfg, before, a + c, n) == CountStopped(cfg, before, a, n)
  {
    if n > 0 {
      CountStoppedPrefix(cfg, before, a, c, n - 1);
      assert (a + c)[n - 1] == a[n - 1];
    }
  }

  /** The ascending indices 0 .. n-1. */
  function Range(n: nat): (r: seq<nat>)
    ensures |r| == n && forall i :: 0 <= i < n ==> r[i] == i
  {
    seq(n, i => i)
  }

  /**
   * Which invaders of the original list survive the pass over the first n
   * lasers, as indices into it: each hit deletes the hit invader's index.
   */
  function Survivors(cfg: Config, ls: seq<LaserState>, n: nat, invaders: seq<Pos>): seq<nat>
    requires n <= |ls|
  {
    if n == 0 then Range(|invaders|)
    else
      var before := Resolve(cfg, ls, n - 1, invaders);
      var idx := Survivors(cfg, ls, n - 1, invaders);
      var k := FirstHit(cfg, Moved(cfg, ls[n - 1]), before.invaders);
      if StepLaser(cfg, ls[n - 1], before.invaders).hits == [] || k >= |idx| then idx
      else Without(idx, k)
  }

  /**
   * The invaders left by the pass keep their relative order: they are the
   * original invaders at a strictly ascending sequence of indices.
   */
  lemma {:induction false} SurvivorsInOrder(cfg: Config, ls: seq<LaserState>, n: nat, invaders: seq<Pos>)
    requires n <= |ls|
    ensures IndexedBy(Resolve(cfg, ls, n, invaders).invaders, Survivors(cfg, ls, n, invaders), invaders)
    ensures Ascending(Survivors(cfg, ls, n, invaders))
  {
    if n > 0 {
      var before := Resolve(cfg, ls, n - 1, invaders);
      var idx := Survivors(cfg, ls, n - 1, invaders);
      SurvivorsInOrder(cfg, ls, n - 1, invaders);
      var step := StepLaser(cfg, ls[n - 1], before.invaders);
      assert Resolve(cfg, ls, n, invaders).invaders == step.invaders;
      if step.hits != [] {
        var k := FirstHit(cfg, Moved(cfg, ls[n - 1]), before.invaders);
        assert k < |before.invaders| && step.invaders == Without(before.invaders, k);
        assert Survivors(cfg, ls, n, invaders) == Without(idx, k);
        DeleteIndexed(before.invaders, idx, invaders, k);
      } else {
        assert step.invaders == before.invaders && Survivors(cfg, ls, n, invaders) == idx;
      }
    }
  }

  /** The current state of every laser in the list. */
  function States(ls: seq<Laser>): (r: seq<LaserState>)
    reads ls
    ensures |r| == |ls| && forall i :: 0 <= i < |ls| ==> r[i] == ls[i].State()
  {
    if |ls| == 0 then [] else States(ls[..|ls| - 1]) + [ls[|ls| - 1].State()]
  }

  /** `laser.active` for every laser: the condition of the final comprehension. */
  function ActiveLasers(ls: seq<Laser>): (keep: seq<bool>)
    reads ls
    ensures |keep| == |ls| && forall i :: 0 <= i < |ls| ==> (keep[i] <==> ls[i].active)
  {
    if |ls| == 0 then [] else ActiveLasers(ls[..|ls| - 1]) + [ls[|ls| - 1].active]
  }

  /** `es[k]` is a newly set-up explosion at the corner `hits[k]`, for every k. */
  predicate AllSpawned(cfg: Config, es: seq<Explosion>, hits: seq<Pos>)
    reads es
  {
    |es| == |hits| && forall k :: 0 <= k < |es| ==> es[k].SpawnedAt(cfg, hits[k].x, hits[k].y)
  }

  lemma AllSpawnedAppend(cfg: Config, es1: seq<Explosion>, h1: seq<Pos>, es2: seq<Explosion>, h2: seq<Pos>)
    requires AllSpawned(cfg, es1, h1) && AllSpawned(cfg, es2, h2)
    ensures AllSpawned(cfg, es1 + es2, h1 + h2)
  {
    forall k | 0 <= k < |es1 + es2|
      ensures (es1 + es2)[k].SpawnedAt(cfg, (h1 + h2)[k].x, (h1 + h2)[k].y)
    {
      if k >= |es1| {
        assert (es1 + es2)[k] == es2[k - |es1|] && (h1 + h2)[k] == h2[k - |es1|];
      }
    }
  }

  /**
   * The pass's work on one laser: if active it moves, then scans a copy of
   * the invader list; at the first invader it hits it switches off, appends
   * an explosion at that invader's corner, removes the invader and stops
   * scanning. The result is exactly StepLaser on the laser's entry state.
   */
  method ResolveLaser(cfg: Config, laser: Laser, invaders: seq<Pos>, explosions: seq<Explosion>)
    returns (invadersOut: seq<Pos>, explosionsOut: seq<Explosion>, ghost made: seq<Explosion>)
    requires cfg.Valid()
    modifies laser
    ensures var step := StepLaser(cfg, old(laser.State()), invaders);
      && laser.State() == step.lasers[0]
      && invadersOut == step.invaders
      && explosionsOut == explosions + made
      && AllSpawned(cfg, made, step.hits)
      && forall e :: e in made ==> fresh(e)
    ensures Distinct(explosions) ==> Distinct(explosionsOut)
  {
    ghost var s := laser.State();
    invadersOut, explosionsOut, made := invaders, explosions, [];
    if laser.active {
      laser.Move(cfg);
      var targets := invaders[..];
      var k := 0;
      while k < |targets|
        invariant 0 <= k <= |targets|
        invariant laser.State() == Moved(cfg, s)
        invariant forall j :: 0 <= j < k ==> !Collides(cfg, laser.State(), targets[j])
        invariant invadersOut == targets && explosionsOut == explosions
      {
        if laser.CheckCollision(cfg, targets[k].x, targets[k].y) {
          FirstHitAt(cfg, Moved(cfg, s), targets, k);
          forall j | 0 <= j < k
            ensures targets[j] != targets[k]
          {
            assert !Collides(cfg, Moved(cfg, s), targets[j]);
          }
          RemoveFirstAt(targets, targets[k], k);
          laser.active := false;
          var e := new Explosion(cfg, targets[k].x, targets[k].y);
          explosionsOut, made := explosionsOut + [e], [e];
          invadersOut := RemoveFirst(invadersOut, targets[k]);
          break;
        }
        k := k + 1;
      }
      if k == |targets| {
        FirstHitAt(cfg, Moved(cfg, s), targets, k);
      }
    }
  }

  /**
   * The laser pass after its first i lasers, against `Resolve` on the states
   * the lasers had at entry (`snap`): lasers before i hold their new state,
   * the others are untouched, the invaders left are those of `Resolve`, and
   * `made` holds one new explosion per invader hit so far.
   */
  ghost predicate Progress(cfg: Config, lasers: seq<Laser>, snap: seq<LaserState>, i: nat,
                           invaders: seq<Pos>, invadersNow: seq<Pos>, made: seq<Explosion>)
    requires cfg.Valid()
    reads lasers, made
  {
    && |snap| == |lasers| && i <= |lasers|
    && var r := Resolve(cfg, snap, i, invaders);
    && |r.lasers| == i && invadersNow == r.invaders
    && (forall j :: 0 <= j < i ==> lasers[j].State() == r.lasers[j])
    && (forall j :: i <= j < |lasers| ==> lasers[j].State() == snap[j])
    && AllSpawned(cfg, made, r.hits)
  }

  /** Progress, together with the explosions appended so far and their distinctness. */
  ghost predicate Resolving(cfg: Config, lasers: seq<Laser>, snap: seq<LaserState>, i: nat,
                           invaders: seq<Pos>, invadersNow: seq<Pos>, explosions: seq<Explosion>, explosionsNow: seq<Explosion>, made: seq<Explosion>)
    requires cfg.Valid()
    reads lasers, made
  {
    && Progress(cfg, lasers, snap, i, invaders, invadersNow, made)
    && explosionsNow == explosions + made
    && (Distinct(explosions) ==> Distinct(explosionsNow))
  }

  /** One turn of the loop over the lasers: resolves laser i, leaving every other laser alone. */
  method ResolveNext(cfg: Config, lasers: seq<Laser>, i: nat, ghost snap: seq<LaserState>, ghost invaders: seq<Pos>,
                     invadersNow: seq<Pos>, ghost explosionsAtEntry: seq<Explosion>, explosions: seq<Explosion>, ghost made: seq<Explosion>)
    returns (invadersOut: seq<Pos>, explosionsOut: seq<Explosion>, ghost m: seq<Explosion>)
    requires cfg.Valid() && Distinct(lasers) && i < |lasers|
    requires Resolving(cfg, lasers, snap, i, invaders, invadersNow, explosionsAtEntry, explosions, made)
    modifies lasers[i]
    ensures Resolving(cfg, lasers, snap, i + 1, invaders, invadersOut, explosionsAtEntry, explosionsOut, made + m)
  {
    ghost var r := Resolve(cfg, snap, i, invaders);
    ghost var step := StepLaser(cfg, snap[i], invadersNow);
    assert lasers[i].State() == snap[i];
    invadersOut, explosionsOut, m := ResolveLaser(cfg, lasers[i], invadersNow, explosions);
    forall j | 0 <= j < |lasers| && j != i
      ensures lasers[j].State() == old(lasers[j].State())
    {
      assert lasers[j] != lasers[i];
    }
    AllSpawnedAppend(cfg, made, r.hits, m, step.hits);
    assert Resolve(cfg, snap, i + 1, invaders) == Resolution(r.lasers + step.lasers, step.invaders, r.hits + step.hits);
  }

  /**
   * The loop of the laser pass: each laser in list order moves, destroys the
   * first invader it hits and records an explosion there. The lasers' new
   * states, the invaders left and the explosions appended are exactly those
   * of `Resolve` on the states at entry.
   */
  method ResolveAll(cfg: Config, lasers: seq<Laser>, invaders: seq<Pos>, explosions: seq<Explosion>)
    returns (invadersOut: seq<Pos>, explosionsOut: seq<Explosion>, ghost made: seq<Explosion>)
    requires cfg.Valid()
    requires Distinct(lasers)
    modifies lasers
    ensures States(lasers) == Resolve(cfg, old(States(lasers)), |lasers|, invaders).lasers
    ensures invadersOut == Resolve(cfg, old(States(lasers)), |lasers|, invaders).invaders
    ensures explosionsOut == explosions + made
    ensures AllSpawned(cfg, made, Resolve(cfg, old(States(lasers)), |lasers|, invaders).hits)
    ensures Distinct(explosions) ==> Distinct(explosionsOut)
  {
    ghost var snap := States(lasers);
    invadersOut := invaders;
    explosionsOut, made := explosions, [];
    ResolvingStart(cfg, lasers, invaders, explosions);
    var i := 0;
    while i < |lasers|
      invariant i <= |lasers|
      invariant Resolving(cfg, lasers, snap, i, invaders, invadersOut, explosions, explosionsOut, made)
    {
      ghost var m;
      invadersOut, explosionsOut, m := ResolveNext(cfg, lasers, i, snap, invaders, invadersOut, explosions, explosionsOut, made);
      made := made + m;
      i := i + 1;
    }
    ResolvingDone(cfg, lasers, snap, invaders, invadersOut, explosions, explosionsOut, made);
  }

  /** Before the first laser nothing has been resolved. */
  lemma ResolvingStart(cfg: Config, lasers: seq<Laser>, invaders: seq<Pos>, explosions: seq<Explosion>)
    requires cfg.Valid()
    ensures Resolving(cfg, lasers, States(lasers), 0, invaders, invaders, explosions, explosions, [])
  {
  }

  /** After the last laser the loop has done all of `Resolve`. */
  lemma ResolvingDone(cfg: Config, lasers: seq<Laser>, snap: seq<LaserState>, invaders: seq<Pos>, invadersNow: seq<Pos>,
                 explosions: seq<Explosion>, explosionsNow: seq<Explosion>, made: seq<Explosion>)
    requires cfg.Valid()
    requires Resolving(cfg, lasers, snap, |lasers|, invaders, invadersNow, explosions, explosionsNow, made)
    ensures States(lasers) == Resolve(cfg, snap, |lasers|, invaders).lasers
    ensures invadersNow == Resolve(cfg, snap, |lasers|, invaders).invaders
    ensures explosionsNow == explosions + made
    ensures AllSpawned(cfg, made, Resolve(cfg, snap, |lasers|, invaders).hits)
    ensures Distinct(explosions) ==> Distinct(explosionsNow)
  {
    assert States(lasers) == Resolve(cfg, snap, |lasers|, invaders).lasers;
  }

  /**
   * update_lasers: the loop above, then the lasers still active, in order:
   * every laser returned is active and every active laser is returned.
   */
  method UpdateLasers(cfg: Config, lasers: seq<Laser>, invaders: seq<Pos>, explosions: seq<Explosion>)
    returns (kept: seq<Laser>, invadersOut: seq<Pos>, explosionsOut: seq<Explosion>, ghost made: seq<Explosion>)
    requires cfg.Valid()
    requires Distinct(lasers)
    modifies lasers
    ensures States(lasers) == Resolve(cfg, old(States(lasers)), |lasers|, invaders).lasers
    ensures invadersOut == Resolve(cfg, old(States(lasers)), |lasers|, invaders).invaders
    ensures explosionsOut == explosions + made
    ensures AllSpawned(cfg, made, Resolve(cfg, old(States(lasers)), |lasers|, invaders).hits)
    ensures Distinct(explosions) ==> Distinct(explosionsOut)
    ensures kept == Select(lasers, ActiveLasers(lasers))
    ensures forall l :: l in kept ==> l in lasers && l.active
    ensures forall l :: l in lasers && l.active ==> l in kept
    ensures Distinct(kept)
  {
    invadersOut, explosionsOut, made := ResolveAll(cfg, lasers, invaders, explosions);
    kept := Select(lasers, ActiveLasers(lasers));
    SelectMembers(lasers, ActiveLasers(lasers));
    SelectDistinct(lasers, ActiveLasers(lasers));
  }

  // ---------------------------------------------------- update_explosions

  /** `explosion.is_active` for every explosion: the condition of the final comprehension. */
  function ActiveExplosions(es: seq<Explosion>): (keep: seq<bool>)
    reads es
    ensures |keep| == |es| && forall i :: 0 <= i < |es| ==> (keep[i] <==> es[i].IsActive())
  {
    if |es| == 0 then [] else ActiveExplosions(es[..|es| - 1]) + [es[|es| - 1].IsActive()]
  }

  /**
   * update_explosions: every explosion ages by one update, then the ones
   * still active are returned in order: every explosion returned is active
   * and every active one is returned.
   */
  method UpdateExplosions(explosions: seq<Explosion>) returns (kept: seq<Explosion>)
    requires Distinct(explosions)
    modifies explosions
    ensures forall i :: 0 <= i < |explosions| ==> explosions[i].View() == ExplosionStep(old(explosions[i].View()))
    ensures kept == Select(explosions, ActiveExplosions(explosions))
    ensures forall e :: e in kept ==> e in explosions && e.IsActive()
    ensures forall e :: e in explosions && e.IsActive() ==> e in kept
    ensures Distinct(kept)
  {
    var i := 0;
    while i < |explosions|
      invariant 0 <= i <= |explosions|
      invariant forall j :: 0 <= j < i ==> explosions[j].View() == ExplosionStep(old(explosions[j].View()))
      invariant forall j :: i <= j < |explosions| ==> explosions[j].View() == old(explosions[j].View())
    {
      label before:
      explosions[i].Update();
      forall j | 0 <= j < |explosions| && j != i
        ensures explosions[j].View() == old@before(explosions[j].View())
      {
        assert explosions[j] != explosions[i];
      }
      i := i + 1;
    }
    kept := Select(explosions, ActiveExplosions(explosions));
    SelectMembers(explosions, ActiveExplosions(explosions));
    SelectDistinct(explosions, ActiveExplosions(explosions));
  }

  // ------------------------------------------------------ create_invaders

  /** The starting formation: rows of invaders `spacing` apart, from (spacing, 50). */
  function Formation(cfg: Config): seq<Pos>
    requires cfg.Valid()
  {
    GridRows(cfg.invaderRows, cfg.invadersPerRow, cfg.invaderSpacing, cfg.invaderSpacing, 50, cfg.invaderSpacing)
  }

  /**
   * Invader k of the formation is in column k % n and row k / n, where n is
   * the number of invaders per row: at ((col + 1) * spacing, row * spacing + 50).
   */
  lemma FormationLayout(cfg: Config)
    requires cfg.Valid()
    ensures |Formation(cfg)| == cfg.invaderRows * cfg.invadersPerRow
    ensures forall k :: 0 <= k < |Formation(cfg)| ==>
      Formation(cfg)[k] == Pos((k % cfg.invadersPerRow + 1) * cfg.invaderSpacing,
                               (k / cfg.invadersPerRow) * cfg.invaderSpacing + 50)
  {
    var n, sp := cfg.invadersPerRow, cfg.invaderSpacing;
    forall k | 0 <= k < |Formation(cfg)|
      ensures Formation(cfg)[k] == Pos((k % n + 1) * sp, (k / n) * sp + 50)
    {
      GridAt(cfg.invaderRows, n, sp, sp, 50, sp, k);
      assert sp + (k % n) * sp == (k % n + 1) * sp;
    }
  }

  /** No two invaders of the formation share a position. */
  lemma FormationDistinct(cfg: Config)
    requires cfg.Valid()
    ensures Distinct(Formation(cfg))
  {
    FormationLayout(cfg);
    var f, n, sp := Formation(cfg), cfg.invadersPerRow, cfg.invaderSpacing;
    forall i, j | 0 <= i < j < |f|
      ensures f[i] != f[j]
    {
      assert i == (i / n) * n + i % n && j == (j / n) * n + j % n;
      if i % n != j % n {
        DistinctMultiples(i % n + 1, j % n + 1, sp);
      } else {
        DistinctMultiples(i / n, j / n, sp);
      }
    }
  }

  /** Different multiples of a positive number differ. */
  lemma DistinctMultiples(a: int, b: int, m: int)
    requires m > 0 && a != b
    ensures a * m != b * m
  {
    if a < b {
      assert (b - a) * m > 0;
    } else {
      assert (a - b) * m > 0;
    }
  }

  /** create_invaders: the formation, built row by row. */
  method CreateInvaders(cfg: Config) returns (invaders: seq<Pos>)
    requires cfg.Valid()
    ensures invaders == Formation(cfg)
  {
    var sp := cfg.invaderSpacing;
    invaders := [];
    var row := 0;
    while row < cfg.invaderRows
      invariant 0 <= row <= cfg.invaderRows
      invariant invaders == GridRows(row, cfg.invadersPerRow, sp, sp, 50, sp)
    {
      var col := 0;
      while col < cfg.invadersPerRow
        invariant 0 <= col <= cfg.invadersPerRow
        invariant invaders == GridRows(row, cfg.invadersPerRow, sp, sp, 50, sp) + GridRow(row, col, sp, sp, 50, sp)
      {
        var x := (col + 1) * sp;
        var y := row * sp + 50;
        assert GridRow(row, col + 1, sp, sp, 50, sp) == GridRow(row, col, sp, sp, 50, sp) + [Pos(x, y)];
        invaders := invaders + [Pos(x, y)];
        col := col + 1;
      }
      row := row + 1;
    }
  }

  // ------------------------------------------------------- move_invaders

  /** Every invader moved down by d pixels. */
  function Lowered(invaders: seq<Pos>, d: int): (r: seq<Pos>)
    ensures |r| == |invaders|
  {
    seq(|invaders|, i requires 0 <= i < |invaders| => Pos(invaders[i].x, invaders[i].y + d))
  }

  /**
   * Whether invader p's bottom edge has reached SCREEN_HEIGHT - SHIP_SIZE - 10,
   * the top edge of the player's ship (the ship sits 10 pixels above the
   * bottom of the screen).
   */
  predicate AtBottom(cfg: Config, p: Pos) {
    p.y + cfg.invaderSize >= cfg.screenHeight - cfg.shipSize - 10
  }

  /** Whether any invader is at the bottom. */
  predicate AnyAtBottom(cfg: Config, invaders: seq<Pos>) {
    exists i :: 0 <= i < |invaders| && AtBottom(cfg, invaders[i])
  }

  /**
   * move_invaders: every invader one step (invader speed) down, and whether
   * any of them is now at the bottom.
   */
  method MoveInvaders(cfg: Config, invaders: seq<Pos>) returns (moved: seq<Pos>, reachedBottom: bool)
    ensures moved == Lowered(invaders, cfg.invaderSpeed)
    ensures reachedBottom <==> AnyAtBottom(cfg, moved)
  {
    moved := invaders;
    reachedBottom := false;
    var i := 0;
    while i < |moved|
      invariant 0 <= i <= |moved| == |invaders|
      invariant forall j :: 0 <= j < i ==> moved[j] == Pos(invaders[j].x, invaders[j].y + cfg.invaderSpeed)
      invariant forall j :: i <= j < |moved| ==> moved[j] == invaders[j]
      invariant reachedBottom <==> exists j :: 0 <= j < i && AtBottom(cfg, moved[j])
    {
      moved := moved[i := Pos(moved[i].x, moved[i].y + cfg.invaderSpeed)];
      if moved[i].y + cfg.invaderSize >= cfg.screenHeight - cfg.shipSize - 10 {
        reachedBottom := true;
      }
      i := i + 1;
    }
  }

  /** Two descents add up, and x never changes. */
  lemma LoweredTwice(invaders: seq<Pos>, a: int, b: int)
    ensures Lowered(Lowered(invaders, a), b) == Lowered(invaders, a + b)
  {
  }

  /** Once an invader is at the bottom it stays there: descending further keeps the flag set. */
  lemma AtBottomStays(cfg: Config, invaders: seq<Pos>, d: int)
    requires AnyAtBottom(cfg, invaders) && d >= 0
    ensures AnyAtBottom(cfg, Lowered(invaders, d))
  {
    var i :| 0 <= i < |invaders| && AtBottom(cfg, invaders[i]);
    assert AtBottom(cfg, Lowered(invaders, d)[i]);
  }

  /** The invaders after n ticks of move_invaders, each lowering them by d. */
  function Descended(invaders: seq<Pos>, d: int, n: nat): seq<Pos> {
    if n == 0 then invaders else Lowered(Descended(invaders, d, n - 1), d)
  }

  /** n ticks of descent by d are one descent by n * d. */
  lemma {:induction false} DescendedIsLowered(invaders: seq<Pos>, d: int, n: nat)
    ensures Descended(invaders, d, n) == Lowered(invaders, n * d)
  {
    if n == 0 {
      assert Lowered(invaders, 0) == invaders;
    } else {
      DescendedIsLowered(invaders, d, n - 1);
      LoweredTwice(invaders, (n - 1) * d, d);
      assert (n - 1) * d + d == n * d;
    }
  }

  /**
   * A non-empty formation always reaches the bottom: after n ticks of
   * move_invaders, with n at least the remaining distance of the first
   * invader divided by the (positive) invader speed, some invader is at the
   * bottom.
   */
  lemma EventuallyAtBottom(cfg: Config, invaders: seq<Pos>, n: nat)
    requires cfg.Valid() && |invaders| > 0
    requires n * cfg.invaderSpeed >= cfg.screenHeight - cfg.shipSize - 10 - cfg.invaderSize - invaders[0].y
    ensures AnyAtBottom(cfg, Descended(invaders, cfg.invaderSpeed, n))
  {
    DescendedIsLowered(invaders, cfg.invaderSpeed, n);
    assert AtBottom(cfg, Lowered(invaders, n * cfg.invaderSpeed)[0]);
  }

  // --------------------------------------------------- update_game_state

  /**
   * update_game_state, one frame of the win/lose logic. The invader list the
   * source lowers in place is returned as a value; the effects the source
   * returns are the out-parameters, and `quit` stands for the exit the source
   * takes when an effect's countdown has run out. The cases, in the order the
   * source tries them:
   *   1. no invaders left and no victory yet: a new victory effect and no
   *      game-over effect;
   *   2. invaders left and no game-over yet: the invaders descend one step,
   *      and if one reaches the bottom a new game-over effect replaces both;
   *   3. otherwise the existing victory effect is updated, and the program
   *      quits if it is no longer active; if it did not quit, the existing
   *      game-over effect is updated in the same way.
   */
  method UpdateGameState(cfg: Config, invaders: seq<Pos>, victory: TerminalEffect?, gameOver: TerminalEffect?)
    returns (invadersOut: seq<Pos>, victoryOut: TerminalEffect?, gameOverOut: TerminalEffect?, quit: bool,
             ghost victorySpawn: seq<Particle>, ghost gameOverSpawn: seq<Particle>)
    requires cfg.Valid()
    requires victory != null ==> victory.kind == Victory
    requires gameOver != null ==> gameOver.kind == GameOver
    modifies victory, gameOver
    // 1. victory
    ensures invaders == [] && victory == null ==>
      && invadersOut == invaders && !quit
      && victoryOut != null && fresh(victoryOut) && victoryOut.kind == Victory
      && victoryOut.duration == cfg.victoryDuration && IsBatch(cfg, Victory, victoryOut.particles)
      && gameOverOut == null
      && (gameOver != null ==> gameOver.View() == old(gameOver.View()))
    // 2. descent
    ensures invaders != [] && gameOver == null ==> invadersOut == Lowered(invaders, cfg.invaderSpeed)
    ensures invaders != [] && gameOver == null && AnyAtBottom(cfg, invadersOut) ==>
      && !quit && victoryOut == null
      && gameOverOut != null && fresh(gameOverOut) && gameOverOut.kind == GameOver
      && gameOverOut.duration == cfg.gameOverDuration && IsBatch(cfg, GameOver, gameOverOut.particles)
      && (victory != null ==> victory.View() == old(victory.View()))
    // 3. existing effects
    ensures !(invaders != [] && gameOver == null) ==> invadersOut == invaders
    ensures Settled(cfg, invaders, victory, gameOver, invadersOut) ==>
      && victoryOut == victory && gameOverOut == gameOver
      && (victory != null ==> IsUpdate(cfg, Victory, old(victory.View()), victorySpawn, victory.View()))
      && (quit <==> (victory != null && !victory.IsActive()) || (gameOver != null && !gameOver.IsActive()))
    ensures Settled(cfg, invaders, victory, gameOver, invadersOut) && gameOver != null ==>
      if victory != null && !victory.IsActive() then gameOver.View() == old(gameOver.View())
      else IsUpdate(cfg, GameOver, old(gameOver.View()), gameOverSpawn, gameOver.View())
    // with no invaders left none reappear, and no game-over effect can start
    ensures invaders == [] ==> invadersOut == []
    ensures invaders == [] && gameOver == null ==> gameOverOut == null
    // at most one of the two effects is ever running
    ensures victory == null || gameOver == null ==> victoryOut == null || gameOverOut == null
  {
    invadersOut, victoryOut, gameOverOut, quit := invaders, victory, gameOver, false;
    victorySpawn, gameOverSpawn := [], [];
    if invaders == [] && victory == null {
      victoryOut := new TerminalEffect(cfg, Victory);
      gameOverOut := null;
      return;
    }
    if invaders != [] && gameOver == null {
      var reachedBottom;
      invadersOut, reachedBottom := MoveInvaders(cfg, invaders);
      if reachedBottom {
        victoryOut := null;
        gameOverOut := new TerminalEffect(cfg, GameOver);
        return;
      }
    }
    if victory != null {
      victorySpawn := victory.Update(cfg);
      if !victory.IsActive() {
        quit := true;
        return;
      }
    }
    if gameOver != null {
      gameOverSpawn := gameOver.Update(cfg);
      if !gameOver.IsActive() {
        quit := true;
        return;
      }
    }
  }

  /** Whether update_game_state reaches the update of the existing effects (case 3). */
  predicate Settled(cfg: Config, invaders: seq<Pos>, victory: TerminalEffect?, gameOver: TerminalEffect?, invadersOut: seq<Pos>) {
    && !(invaders == [] && victory == null)
    && !(invaders != [] && gameOver == null && AnyAtBottom(cfg, invadersOut))
  }
}
