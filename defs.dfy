/**
 * The game's tunable constants and the shared position type.
 *
 * The utility and effect files import their constants from a module that is
 * not part of this model; every such constant is a field of `Config`, and
 * `Config.Valid` states the positivity the game relies on.
 */
module Defs {

  /** A point on the screen, in pixels; y grows downwards. */
  datatype Pos = Pos(x: int, y: int)

  datatype Config = Config(
    screenWidth: int,
    screenHeight: int,
    shipSize: int,
    invaderSize: int,
    invaderRows: int,
    invadersPerRow: int,
    invaderSpacing: int,
    invaderSpeed: int,
    laserSpeed: int,
    laserWidth: int,
    laserHeight: int,
    particleCount: int,
    explosionDuration: int,
    victoryDuration: int,
    victoryParticleCount: int,
    gameOverDuration: int,
    gameOverParticleCount: int)
  {
    /** Every constant is a positive integer. */
    predicate Valid() {
      && screenWidth > 0 && screenHeight > 0 && shipSize > 0
      && invaderSize > 0 && invaderRows > 0 && invadersPerRow > 0
      && invaderSpacing > 0 && invaderSpeed > 0
      && laserSpeed > 0 && laserWidth > 0 && laserHeight > 0
      && particleCount > 0 && explosionDuration > 0
      && victoryDuration > 0 && victoryParticleCount > 0
      && gameOverDuration > 0 && gameOverParticleCount > 0
    }
  }
}
