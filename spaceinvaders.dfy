/**
 * The game's main file: its own screen and formation constants, its own
 * create_invaders (a grid that starts 100 pixels from the left), and the
 * player ship that main bounces from one screen edge to the other, one
 * step per frame.
 */
module SpaceInvaders {
  import opened Defs
  import opened Grid

  const ScreenWidth := 800
  const ScreenHeight := 600
  const ShipSize := 40
  const InvaderSize := 30
  const InvaderRows := 3
  const InvadersPerRow := 8
  const InvaderSpacing := 60
  const PlayerSpeed := 5

  // ----------------------------------------------------------- create_invaders

  /** The formation of this file: column c of row r at (c * 60 + 100, r * 60 + 50). */
  function Formation(): seq<Pos> {
    GridRows(InvaderRows, InvadersPerRow, 100, InvaderSpacing, 50, InvaderSpacing)
  }

  /** 3 x 8 = 24 invaders in row-major order: invader k is in column k % 8 and row k / 8. */
  lemma FormationLayout()
    ensures |Formation()| == 24
    ensures forall k :: 0 <= k < |Formation()| ==>
      Formation()[k] == Pos((k % 8) * 60 + 100, (k / 8) * 60 + 50)
  {
    forall k | 0 <= k < |Formation()|
      ensures Formation()[k] == Pos((k % 8) * 60 + 100, (k / 8) * 60 + 50)
    {
      GridAt(InvaderRows, InvadersPerRow, 100, InvaderSpacing, 50, InvaderSpacing, k);
    }
  }

  /** Every invader of the formation starts with x in [100, 520] and y in [50, 170]. */
  lemma FormationBounds()
    ensures forall p :: p in Formation() ==> 100 <= p.x <= 520 && 50 <= p.y <= 170
  {
    FormationLayout();
    forall p | p in Formation()
      ensures 100 <= p.x <= 520 && 50 <= p.y <= 170
    {
      var k :| 0 <= k < |Formation()| && Formation()[k] == p;
      assert 0 <= k / 8 <= 2;
    }
  }

  /** create_invaders: the nested loops append the formation row by row. */
  method CreateInvaders() returns (invaders: seq<Pos>)
    ensures invaders == Formation()
  {
    invaders := [];
    var row := 0;
    while row < InvaderRows
      invariant 0 <= row <= InvaderRows
      invariant invaders == GridRows(row, InvadersPerRow, 100, InvaderSpacing, 50, InvaderSpacing)
    {
      var col := 0;
      while col < InvadersPerRow
        invariant 0 <= col <= InvadersPerRow
        invariant invaders == GridRows(row, InvadersPerRow, 100, InvaderSpacing, 50, InvaderSpacing)
                              + GridRow(row, col, 100, InvaderSpacing, 50, InvaderSpacing)
      {
        var x := col * InvaderSpacing + 100;
        var y := row * InvaderSpacing + 50;
        assert GridRow(row, col + 1, 100, InvaderSpacing, 50, InvaderSpacing)
            == GridRow(row, col, 100, InvaderSpacing, 50, InvaderSpacing) + [Pos(x, y)];
        invaders := invaders + [Pos(x, y)];
        col := col + 1;
      }
      row := row + 1;
    }
  }

  // -------------------------------------------------------------- the player

  /** The player ship: its top-left corner and the direction it moves in. */
  datatype Player = Player(x: int, y: int, moveRight: bool)

  /** The ship starts centred, 10 pixels above the bottom edge, moving right. */
  function Start(): (p: Player)
    ensures p == Player(380, 550, true)
  {
    Player(ScreenWidth / 2 - ShipSize / 2, ScreenHeight - ShipSize - 10, true)
  }

  /**
   * One frame of main's loop: a step of PlayerSpeed in the current direction;
   * the direction turns once the ship reaches the right edge (x >= 760) or
   * the left edge (x <= 0).
   */
  function Step(p: Player): Player {
    if p.moveRight then
      var x := p.x + PlayerSpeed;
      Player(x, p.y, !(x >= ScreenWidth - ShipSize))
    else
      var x := p.x - PlayerSpeed;
      Player(x, p.y, x <= 0)
  }

  /** The ship after n frames. */
  function Steps(p: Player, n: nat): Player {
    if n == 0 then p else Step(Steps(p, n - 1))
  }

  /**
   * A step moves the ship by exactly the speed in its direction and never
   * vertically; the direction is cleared exactly when a rightward step
   * reaches 760 and set exactly when a leftward step reaches 0.
   */
  lemma StepEffect(p: Player)
    ensures Step(p).y == p.y
    ensures p.moveRight ==> Step(p).x == p.x + 5 && (!Step(p).moveRight <==> Step(p).x >= 760)
    ensures !p.moveRight ==> Step(p).x == p.x - 5 && (Step(p).moveRight <==> Step(p).x <= 0)
  {
  }

  /** The direction changes only at the two edges: strictly between them a step keeps it. */
  lemma TurnsOnlyAtEdges(p: Player)
    ensures 0 < Step(p).x < 760 ==> Step(p).moveRight == p.moveRight
  {
  }

  /**
   * The states the ship can be in: on screen, on the 5-pixel lattice, at
   * least one step away from the edge it is heading to, and at height 550.
   */
  predicate Inv(p: Player) {
    && 0 <= p.x <= 760
    && p.x % 5 == 0
    && (p.moveRight ==> p.x <= 755)
    && (!p.moveRight ==> p.x >= 5)
    && p.y == 550
  }

  /**
   * The screen range alone is not kept by a step: at either edge, facing
   * outwards, the ship steps off it. Such states are never reached (Inv).
   */
  lemma EdgeOvershoot()
    ensures Step(Player(760, 550, true)).x == 765
    ensures Step(Player(0, 550, false)).x == -5
  {
  }

  lemma StepPreservesInv(p: Player)
    requires Inv(p)
    ensures Inv(Step(p))
  {
  }

  /** Every state the ship reaches from the start satisfies the invariant. */
  lemma {:induction false} ReachableInv(n: nat)
    ensures Inv(Steps(Start(), n))
  {
    if n > 0 {
      ReachableInv(n - 1);
      StepPreservesInv(Steps(Start(), n - 1));
    }
  }

  /** Running a + b frames is running a frames and then b more. */
  lemma {:induction false} StepsAdd(p: Player, a: nat, b: nat)
    ensures Steps(p, a + b) == Steps(Steps(p, a), b)
  {
    if b > 0 {
      StepsAdd(p, a, b - 1);
    }
  }

  /** Moving right with the right edge more than k steps away, k frames only move the ship. */
  lemma {:induction false} SweepRight(p: Player, k: nat)
    requires p.moveRight && p.x + 5 * k < 760
    ensures Steps(p, k) == Player(p.x + 5 * k, p.y, true)
  {
    if k > 0 {
      SweepRight(p, k - 1);
    }
  }

  /** Moving left with the left edge more than k steps away, k frames only move the ship. */
  lemma {:induction false} SweepLeft(p: Player, k: nat)
    requires !p.moveRight && p.x - 5 * k > 0
    ensures Steps(p, k) == Player(p.x - 5 * k, p.y, false)
  {
    if k > 0 {
      SweepLeft(p, k - 1);
    }
  }

  /** From the start, 76 frames take the ship to the right edge, where it turns. */
  lemma ToRightEdge()
    ensures Steps(Start(), 76) == Player(760, 550, false)
  {
    SweepRight(Start(), 75);
  }

  /** From the right edge, 152 frames take the ship to the left edge, where it turns. */
  lemma ToLeftEdge()
    ensures Steps(Player(760, 550, false), 152) == Player(0, 550, true)
  {
    SweepLeft(Player(760, 550, false), 151);
  }

  /** From the left edge, 76 frames take the ship back to its start. */
  lemma BackToStart()
    ensures Steps(Player(0, 550, true), 76) == Start()
  {
    SweepRight(Player(0, 550, true), 75);
  }

  /**
   * The ship bounces forever: after 304 frames the start state recurs, so
   * the ship sweeps the screen from edge to edge with period 304.
   */
  lemma Period()
    ensures Steps(Start(), 304) == Start()
  {
    ToRightEdge();
    ToLeftEdge();
    BackToStart();
    StepsAdd(Start(), 76, 152);
    StepsAdd(Start(), 228, 76);
  }

  /**
   * main's player movement over a given number of frames (the source loops
   * until the window is closed).
   */
  method RunPlayer(frames: nat) returns (playerX: int, playerY: int, moveRight: bool)
    ensures Player(playerX, playerY, moveRight) == Steps(Start(), frames)
    ensures Inv(Player(playerX, playerY, moveRight))
  {
    playerX := ScreenWidth / 2 - ShipSize / 2;
    playerY := ScreenHeight - ShipSize - 10;
    moveRight := true;
    var i := 0;
    while i < frames
      invariant 0 <= i <= frames && Player(playerX, playerY, moveRight) == Steps(Start(), i)
    {
      if moveRight {
        playerX := playerX + PlayerSpeed;
        if playerX >= ScreenWidth - ShipSize {
          moveRight := false;
        }
      } else {
        playerX := playerX - PlayerSpeed;
        if playerX <= 0 {
          moveRight := true;
        }
      }
      i := i + 1;
    }
    ReachableInv(frames);
  }
}
