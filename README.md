# Space Invaders game logic in Dafny

A model of the per-frame game logic of a small pygame Space Invaders
tutorial, and proofs about it:

- **Lasers** (`Laser` in `spaceinvaders_effects.py`). A shot is created active at its spawn point. Each move takes it up by the laser speed, and it switches off once it is above the screen. `check_collision` overlaps the laser's rectangle with an invader's square and is false for an inactive shot.
- **The laser pass** (`update_lasers`). Each active laser moves and scans a copy of the invader list. At the first invader it hits, it switches off, appends an explosion at that invader's corner and removes the invader. Finally the lasers still active are returned.
- **Explosions** (`update_explosions`, `Explosion`). Every explosion ages by one update, and the ones still active are returned.
- **The invader formation and its descent** (`create_invaders`, `move_invaders`). The invaders form a grid listed row by row, and the whole grid drops by a fixed step each tick. A "reached bottom" flag is raised when an invader's bottom edge reaches SCREEN_HEIGHT - SHIP_SIZE - 10, the top edge of the player's ship (the ship itself sits 10 pixels above the bottom of the screen).
- **The victory and game-over effects** (`VictoryEffect`, `GameOverEffect`). Each has a countdown and a particle set. Every update lowers the countdown by one and, when the new countdown is a multiple of 10, spawns a new batch of particles in the effect's half of the screen. Then it moves every particle and drops the ones that have faded out.
- **The game-state machine** (`update_game_state`). Each tick it starts a victory, or lowers the invaders and possibly starts a game-over, or advances the running effect. The program quits when that effect runs out.
- **The main file** (`spaceinvaders.py`). Its own 3 × 8 formation, and the player ship that bounces between the screen edges.

Files:

| file | module | contents |
|---|---|---|
| `defs.dfy` | `Defs` | positions; `Config`, the constants the utility and effect files import |
| `geometry.dfy` | `Geometry` | rectangles and `colliderect` |
| `sequences.dfy` | `Sequences` | order-preserving filter (list comprehensions) and `list.remove` |
| `grid.dfy` | `Grid` | the row-major grid both `create_invaders` build |
| `effects.dfy` | `Effects` | `Laser`, particles, `Explosion`, the victory / game-over effect |
| `util.dfy` | `Util` | `update_lasers`, `update_explosions`, `create_invaders`, `move_invaders`, `update_game_state` |
| `spaceinvaders.dfy` | `SpaceInvaders` | the main file's `create_invaders` and the player's movement |

Modelling choices:

- **Objects as classes.** Only `Laser`, `Explosion` and `TerminalEffect` are classes. Particles and invader positions are values, although the source also updates them in place (`Particle.move` changes a particle's position and size, and `move_invaders` changes `invader[1]`). Each new value replaces the old one inside its owner's sequence: the particles of their effect, and the invader list. The source keeps no other reference to a particle or an invader position, so no aliasing is lost. `TerminalEffect` covers both the victory and the game-over effect. A `kind` field holds the only differences: the duration and batch-size constants and the spawn region.
- **Lists as returned values.** The source changes the caller's invader and explosion lists in place. Here they are passed in and their new contents returned.
- **View functions.** `State()` and `View()` expose an object's fields as a value. Pure functions such as `Moved`, `StepLaser`, `Resolve`, `ExplosionStep` and `TerminalStep` specify what the methods do to those values.
- **Particle sizes.** Sizes are kept in hundredths of a pixel. The source's fade of 0.1 pixel per move becomes 10, and 0.03 becomes 3. A random size of 2 to 4 pixels becomes 200, 300 or 400.
- **Randomness.** Calls to `random.randint(lo, hi)` become a nondeterministic choice in `[lo, hi]` (`Effects.RandInt`).
- **Collision.** `colliderect` is strict overlap on both axes. Rectangles that only touch at an edge do not collide.
- **Quitting.** The `pygame.quit(); sys.exit()` of `update_game_state` becomes the `quit` result of `Util.UpdateGameState`.

Where the documentation and the code disagree, the model follows the code:

- **Return value of `update_lasers`.** Its docstring says it returns the updated invaders. The code returns the lasers that are still active (`spaceinvaders_util.py:31`).
- **Comment in `create_invaders`.** The comment at `spaceinvaders_util.py:66` says the grid starts 100 pixels from the left. The code puts column c at `(c + 1) * INVADER_SPACING`, so the grid starts INVADER_SPACING pixels from the left; the comment holds only if that constant is 100. The main file's own `create_invaders` does start at 100.
- **Player range.** For a position in `[0, 760]` facing either way, one step does not always stay inside `[0, 760]`. At 760 facing right the next x is 765, and at 0 facing left it is -5 (`SpaceInvaders.EdgeOvershoot`). Those states are never reached from the start: the invariant `SpaceInvaders.Inv` also requires that the ship is at least one step away from the edge it moves towards.
- **Descent on game over.** When the descent reaches the bottom, the invaders have already been lowered in place before the game-over effect starts, so the list is not left unchanged (`Util.UpdateGameState`).

## Model

| member | source | states |
|---|---|---|
| Geometry.CollideIffSharedPixel | spaceinvaders_effects.py:39-41 | two rectangles collide exactly when some pixel lies inside both; touching edges do not count |
| Geometry.Collide | spaceinvaders_effects.py:41 | definition of `colliderect`: the two rectangles overlap strictly on both axes |
| Sequences.Select | spaceinvaders_util.py:31 | a list comprehension keeps at most as many elements as it reads |
| Sequences.SelectIsOrderedFilter | spaceinvaders_util.py:31 | the comprehension keeps exactly the elements whose condition holds, in their original order |
| Sequences.SelectMembers | spaceinvaders_util.py:44 | every accepted element is in the result, and every element of the result is an accepted element of the input |
| Sequences.SelectDistinct | spaceinvaders_util.py:31 | filtering a list with no repeated element gives a list with no repeated element |
| Sequences.RemoveFirst | spaceinvaders_util.py:27 | `list.remove` deletes exactly one occurrence of the value: the length falls by one and the multiset loses that value |
| Sequences.RemoveFirstAt | spaceinvaders_util.py:22-27 | when k is the first index holding the value, `remove` is exactly the deletion of index k (`Without`) |
| Sequences.Without | spaceinvaders_util.py:27 | deleting one index shortens the list by one |
| Sequences.WithoutAt | spaceinvaders_util.py:27 | after deleting index k, the elements before k are unchanged and each later one moves down by one place |
| Sequences.MultisetWithout | spaceinvaders_util.py:27 | the deleted element and the rest together are the original list, as a multiset |
| Sequences.DeleteIndexed | spaceinvaders_util.py:22-27 | if a list is the elements of another at ascending indices, deleting the same position from both keeps that relation and the ascending order |
| Grid.GridRows | spaceinvaders_util.py:63-69 | the nested loops produce rows × cols positions |
| Grid.GridAt | spaceinvaders_util.py:63-69 | element k of the grid is column k % cols of row k / cols, so the order is row-major |
| Effects.MovedTimesSpec | spaceinvaders_effects.py:18-23 | after n moves a laser has kept its x and risen n × speed; it is still active exactly when it started active and its y has not gone below 0, and it is never switched back on |
| Effects.Moved | spaceinvaders_effects.py:18-23 | definition of one move: y falls by the laser speed, x is kept, and the laser switches off once y is negative |
| Effects.CollidesIffSharedPixel | spaceinvaders_effects.py:30-41 | an inactive laser hits nothing; an active one hits an invader exactly when its rectangle and the invader's square share a pixel |
| Effects.Collides | spaceinvaders_effects.py:30-41 | definition of a hit: the laser is active and its rectangle collides with the invader's square |
| Effects.Laser.constructor | spaceinvaders_effects.py:13-16 | a new laser is active at exactly its spawn position |
| Effects.Laser.Move | spaceinvaders_effects.py:18-23 | y falls by the laser speed and x is kept; the laser stays active exactly when it was active and is still on screen |
| Effects.Laser.CheckCollision | spaceinvaders_effects.py:30-41 | The result is false for an inactive laser and otherwise equals `Collides` of the laser's state and the invader's corner, the strict overlap of the laser's rectangle with the invader's square. |
| Effects.Faded | spaceinvaders_effects.py:60-64 | a particle's move shrinks it by the fade rate but never below 0 and keeps its origin; it stays visible exactly when it was bigger than the fade |
| Effects.RandInt | spaceinvaders_effects.py:136-137 | a random integer in the inclusive range |
| Effects.NewParticle | spaceinvaders_effects.py:57 | a new particle starts at its spawn point with a whole-pixel size in the given range |
| Effects.CountdownTrace | spaceinvaders_effects.py:93-96 | along any run of updates from countdown D, the k-th state has countdown D - k and is active exactly when k < D, so it turns inactive after exactly D updates |
| Effects.Active | spaceinvaders_effects.py:93-96 | definition of `is_active` shared by all three effects: the countdown is positive |
| Effects.ExplosionStepsSpec | spaceinvaders_effects.py:82-96 | after k updates an explosion has countdown D - k and all of its particles, each shrunk by k × 0.1 pixel but not below 0; it is active exactly when k < D |
| Effects.ExplosionStep | spaceinvaders_effects.py:82-86 | definition of one explosion update on its view: countdown minus one and every particle moved once |
| Effects.Explosion.constructor | spaceinvaders_effects.py:78-80 | a new explosion has the configured countdown and exactly PARTICLE_COUNT particles at the centre of the invader's square, each 2 to 4 pixels big |
| Effects.Explosion.Update | spaceinvaders_effects.py:82-86 | the countdown falls by one and every particle moves once; the particle count is unchanged |
| Effects.Explosion.IsActive | spaceinvaders_effects.py:93-96 | definition: the explosion is active exactly when its view is `Active` |
| Effects.InRegion | spaceinvaders_effects.py:135-137 | definition of the spawn region: x in [0, SCREEN_WIDTH], and y in the lower half of the screen for victory or in the upper half for game over (the same choice at spaceinvaders_effects.py:202-204) |
| Effects.TerminalStepSpec | spaceinvaders_effects.py:140-150 | after an effect update the countdown has fallen by one; a particle is kept exactly when it is one of the old or spawned particles after its move and its size is still positive; the count is at most the old count plus one batch; and every newly spawned particle survives its first move |
| Effects.TerminalStep | spaceinvaders_effects.py:140-150 | definition of one victory or game-over update on its view: countdown minus one, the spawned batch appended, every particle moved, and the faded ones dropped in order |
| Effects.IsUpdate | spaceinvaders_effects.py:207-214 | definition of a legal update: one batch is spawned exactly when the new countdown is a multiple of 10, and the new view is `TerminalStep` of the old one |
| Effects.TerminalEffect.constructor | spaceinvaders_effects.py:128-131 | a new victory or game-over effect has its configured countdown and exactly one batch of particles in its region |
| Effects.TerminalEffect.CreateParticles | spaceinvaders_effects.py:133-138 | appends exactly one batch: VICTORY_PARTICLE_COUNT particles in the lower half of the screen, or GAME_OVER_PARTICLE_COUNT in the upper half, each 3 to 6 pixels big |
| Effects.TerminalEffect.Update | spaceinvaders_effects.py:207-214 | the countdown falls by one; one batch is spawned exactly when the new countdown is a multiple of 10; then every particle moves and the faded ones are dropped |
| Effects.TerminalEffect.IsActive | spaceinvaders_effects.py:224-227 | definition: the effect is active exactly when its view is `Active` |
| Util.FirstHit | spaceinvaders_util.py:22-28 | the index of the invader a laser stops at lies within the list, or is its length when nothing is hit |
| Util.FirstHitSpec | spaceinvaders_util.py:22-28 | no invader before that index collides with the laser, and the invader at it does |
| Util.FirstHitAt | spaceinvaders_util.py:22-28 | conversely, any index with no collision before it and a collision at it (or the end of the list) is that index |
| Util.StepLaser | spaceinvaders_util.py:19-28 | definition of one laser's turn: an inactive one is untouched; an active one moves and, at the first invader it then hits, switches off, removes that invader and records it as hit |
| Util.Resolve | spaceinvaders_util.py:17-28 | definition of the pass over the first n lasers in list order, each one against the invaders the earlier ones left |
| Util.StepLaserSpec | spaceinvaders_util.py:18-28 | an inactive laser is neither moved nor tested; an active one rises by the laser speed; it removes an invader exactly when one collides after the move, namely the first, and then one explosion is recorded at that invader's corner, the others keep their order and the laser is off |
| Util.StepLaserOutcome | spaceinvaders_util.py:18-28 | one laser gives exactly one new state, related to the old one by the move rule, and it is switched off by a hit exactly when an invader was removed |
| Util.ResolveLength | spaceinvaders_util.py:18-28 | the pass over n lasers gives exactly n new states |
| Util.ResolveLasers | spaceinvaders_util.py:17-28 | the pass gives every laser one new state: inactive lasers are unchanged, active ones are moved by the speed, and a laser is active afterwards only if the move left it on screen |
| Util.StepLaserInvaders | spaceinvaders_util.py:22-27 | one laser moves at most the invader it hit from the invader list to the hit list: the two together are the invaders it saw, as a multiset |
| Util.ResolveStepInvaders | spaceinvaders_util.py:18-27 | adding laser n - 1 to the pass keeps the invaders left plus the invaders hit the same multiset |
| Util.ResolveInvaders | spaceinvaders_util.py:17-27 | no invader is lost or duplicated: after the whole pass the invaders left plus those hit are exactly the invaders on entry, as a multiset |
| Util.ResolveCount | spaceinvaders_util.py:17-27 | the number of invaders left plus the number hit is the number on entry, so the count falls by the number of explosions |
| Util.ResolveHitsStep | spaceinvaders_util.py:18-28 | laser n - 1 adds one hit to the explosion count exactly when it adds one stopped laser to the count of lasers switched off by a hit |
| Util.ResolveHits | spaceinvaders_util.py:22-28 | the number of explosions equals the number of lasers that were switched off by a hit |
| Util.SurvivorsInOrder | spaceinvaders_util.py:22-27 | the invaders left are the original invaders at a strictly ascending sequence of indices, so their relative order is kept |
| Util.States | spaceinvaders_util.py:18 | the lasers' current states, one per laser in list order |
| Util.ActiveLasers | spaceinvaders_util.py:31 | the filter condition of the final comprehension: a laser is kept exactly when it is active |
| Util.ResolveLaser | spaceinvaders_util.py:19-28 | the work on one laser leaves it, the invaders and the explosions as `StepLaser` says, with one new explosion set up at each hit invader's corner |
| Util.ResolveNext | spaceinvaders_util.py:18-28 | one turn of the loop resolves laser i and leaves every other laser unchanged |
| Util.ResolveAll | spaceinvaders_util.py:17-28 | after the loop the lasers' states, the invaders left and the explosions appended are exactly those of `Resolve` on the states at entry |
| Util.UpdateLasers | spaceinvaders_util.py:7-31 | as `ResolveAll`, and the lasers returned are the active ones in their original order: each one returned is active and every active one is returned; the list returned holds no laser twice |
| Util.ActiveExplosions | spaceinvaders_util.py:44 | the filter condition: an explosion is kept exactly when it is active |
| Util.UpdateExplosions | spaceinvaders_util.py:34-44 | every explosion is updated exactly once; those still active are returned in order, each one returned is active and every active one is returned, with no explosion twice |
| Util.Formation | spaceinvaders_util.py:63-69 | definition of the starting formation: the row-major grid with columns from INVADER_SPACING and rows from 50, INVADER_SPACING apart |
| Util.FormationLayout | spaceinvaders_util.py:63-69 | there are INVADER_ROWS × INVADERS_PER_ROW invaders in row-major order; invader k is at ((k % n + 1) × spacing, (k / n) × spacing + 50) |
| Util.FormationDistinct | spaceinvaders_util.py:63-69 | no two invaders of the formation share a position |
| Util.CreateInvaders | spaceinvaders_util.py:57-69 | the nested loops build exactly the formation |
| Util.AtBottom | spaceinvaders_util.py:93 | definition: an invader's bottom edge is at or below SCREEN_HEIGHT - SHIP_SIZE - 10, the top edge of the ship |
| Util.AnyAtBottom | spaceinvaders_util.py:93-94 | definition: some invader of the list is at the bottom |
| Util.MoveInvaders | spaceinvaders_util.py:82-95 | every invader moves down by the invader speed with x unchanged, all of them even after the flag is set; the result is true exactly when some invader's new bottom edge reaches the threshold |
| Util.LoweredTwice | spaceinvaders_util.py:91-92 | two descents add up |
| Util.DescendedIsLowered | spaceinvaders_util.py:91-92 | n ticks of descent move every invader down by n times the speed, with x kept |
| Util.AtBottomStays | spaceinvaders_util.py:93-94 | once an invader is at the bottom, further descent keeps the flag raised |
| Util.EventuallyAtBottom | spaceinvaders_util.py:90-95 | a non-empty formation has an invader at the bottom after enough ticks of move_invaders |
| Util.UpdateGameState | spaceinvaders_util.py:98-130 | with no invaders and no victory, a new victory starts and no effect is advanced; with invaders and no game-over, the invaders descend one step, and reaching the bottom starts a new game-over; in every other case the invader list is unchanged, so an empty list stays empty; otherwise each existing effect is updated once (the game-over one only if the victory did not end) and the program quits exactly when an updated effect is inactive; with no invaders no game-over can start; and if at most one effect runs on entry, at most one runs on exit, so across ticks at most one ever runs |
| SpaceInvaders.Formation | spaceinvaders.py:72-78 | definition of the main file's formation: 3 rows of 8, columns from 100 and rows from 50, 60 pixels apart |
| SpaceInvaders.FormationLayout | spaceinvaders.py:72-78 | 3 × 8 = 24 invaders in row-major order; invader k is at ((k % 8) × 60 + 100, (k / 8) × 60 + 50) |
| SpaceInvaders.FormationBounds | spaceinvaders.py:72-78 | every invader starts with x in [100, 520] and y in [50, 170] |
| SpaceInvaders.CreateInvaders | spaceinvaders.py:66-78 | the nested loops build exactly that formation |
| SpaceInvaders.Start | spaceinvaders.py:93-94 | the ship starts at (380, 550), moving right |
| SpaceInvaders.Step | spaceinvaders.py:111-118 | definition of one frame of the player's movement: 5 pixels in the current direction, turning at x >= 760 going right or x <= 0 going left |
| SpaceInvaders.StepEffect | spaceinvaders.py:111-118 | a step moves the ship by exactly 5 pixels in its direction and never vertically; a rightward step turns exactly when the new x is at least 760, and a leftward one exactly when it is at most 0 |
| SpaceInvaders.TurnsOnlyAtEdges | spaceinvaders.py:111-118 | strictly between the edges a step keeps the direction |
| SpaceInvaders.EdgeOvershoot | spaceinvaders.py:111-118 | at an edge facing outwards a step leaves the screen range, so the range alone is not an invariant |
| SpaceInvaders.Inv | spaceinvaders.py:111-118 | definition of the reachable ship states: x in [0, 760] on the 5-pixel lattice, at least one step from the edge it heads to, and y = 550 |
| SpaceInvaders.StepPreservesInv | spaceinvaders.py:111-118 | a step keeps the ship on screen, on the 5-pixel lattice, at least one step from the edge it heads to, and at height 550 |
| SpaceInvaders.ReachableInv | spaceinvaders.py:93-118 | every state reached from the start satisfies that invariant |
| SpaceInvaders.StepsAdd | spaceinvaders.py:103-118 | a + b frames are a frames followed by b frames |
| SpaceInvaders.SweepRight | spaceinvaders.py:111-114 | moving right with the edge still ahead, k frames only advance the ship by 5k |
| SpaceInvaders.SweepLeft | spaceinvaders.py:115-118 | moving left with the edge still ahead, k frames only move the ship back by 5k |
| SpaceInvaders.ToRightEdge | spaceinvaders.py:93-118 | from the start the ship reaches the right edge and turns after 76 frames |
| SpaceInvaders.ToLeftEdge | spaceinvaders.py:111-118 | from the right edge the ship reaches the left edge and turns after 152 frames |
| SpaceInvaders.BackToStart | spaceinvaders.py:111-118 | from the left edge the ship is back at its start after 76 frames |
| SpaceInvaders.Period | spaceinvaders.py:93-118 | the start state recurs after 304 frames: the ship bounces between the edges forever |
| SpaceInvaders.RunPlayer | spaceinvaders.py:91-118 | the main loop's player movement after any number of frames is the state those frames reach from the start, and it satisfies the invariant |

## Left out

- Drawing: the `draw` methods, `draw_invaders`, `draw_player`, screen clearing, display flipping and the frame clock. These only render.
- `load_image`: file I/O through pygame, with a fallback surface.
- Event polling and the window-close exit of `main`. They are input handling, not game logic.
- Particle motion: the random angle and speed, `math.cos`/`sin`, the float `dx`/`dy`, gravity and colours. This is floating-point animation that no game decision depends on. A particle keeps only its spawn point and its size.
- Effects.Faded: sizes are exact hundredths, not floats. In the source, repeated float subtraction can leave a tiny positive size where exact arithmetic reaches 0, which would drop a particle one move later.
- The random size drawn by the base `Particle` constructor before a victory or game-over particle overwrites it. It does not affect the state.
- The internals of `pygame.Rect.colliderect`: it is a foreign call, stated here as strict overlap. Its handling of rectangles of zero size is not modelled; every size here is positive.
- The values of the constants the utility and effect files import. Their module is not part of this model, so they are the fields of `Defs.Config`, and the model relies only on their positivity.
- Where lasers are fired and how often, and the loop that calls the utility functions. That code is not part of this model.
- Util.UpdateLasers, Util.ResolveAll, Util.ResolveNext, Util.UpdateExplosions: the laser list and the explosion list must not hold the same object twice; with repeats a Python object would be updated twice in one pass, which the model does not capture. For explosions the shown code ensures this: each hit creates one new `Explosion` and appends it once (spaceinvaders_util.py:26), and `Util.UpdateLasers` and `Util.UpdateExplosions` both return lists without repeats again. For lasers it is an assumption about the firing code, which is not part of this model: it is taken to append each new `Laser` once.
- Util.ResolveAll: requires that no laser object appears twice in the list; a repeated laser would be moved and tested twice in the source.
- Util.ResolveNext: requires that no laser object appears twice in the list, so that resolving laser i changes no other entry.
- Util.UpdateLasers: says that each new explosion is set up at its invader's corner, but not that it is a newly allocated object. Only `Util.ResolveLaser` states freshness.
- Util.UpdateGameState, Util.MoveInvaders, Util.UpdateLasers: the caller's lists change in place in the source. Here they are returned as new values, so aliasing between the caller's lists is not modelled.
- SpaceInvaders.RunPlayer: `main` loops until the window is closed. The model runs a given number of frames.
