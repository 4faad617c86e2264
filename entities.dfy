/** The entities of a match: plain records, positioned in arena pixels. */
module Entities {
  import opened Geometry

  /** The arena's size, fixed for the life of the game object. */
  const ArenaWidth: real := 800.0
  const ArenaHeight: real := 350.0

  /** The player's speed in pixels per key press; no operation changes it. */
  const PlayerSpeed: real := 5.0
  /**
   * A strict upper bound on the player's x: the right-arrow guard admits
   * x < 760 and a step adds 5, so x stays below 765 (from the start at 100
   * it stops at exactly 760).
   */
  const PlayerReachX: real := ArenaWidth - 40.0 + PlayerSpeed

  /** Which screen the game shows; exactly one is active at a time. */
  datatype Phase = Instructions | Playing | Victory | GameOver

  /** The way the player's sprite faces (1 and -1 in the game object). */
  datatype Facing = Left | Right

  /** The player's emu; `moving` drives the walking/hit animation only. */
  datatype Player = Player(x: real, y: real, direction: Facing, moving: bool, speed: real) {
    function Pos(): Point { Point(x, y) }
  }

  /** A wheat crop to be trampled; `destroyed` only ever goes from false to true. */
  datatype Crop = Crop(id: int, x: real, y: real, destroyed: bool) {
    function Pos(): Point { Point(x, y) }
  }

  /** A soldier: an emitter of bullets that never moves. */
  datatype Soldier = Soldier(id: int, x: real, y: real) {
    function Pos(): Point { Point(x, y) }
  }

  /** A bullet with its velocity in pixels per tick; its id is a time stamp plus a random fraction. */
  datatype Bullet = Bullet(id: real, x: real, y: real, vx: real, vy: real) {
    function Pos(): Point { Point(x, y) }
  }

  /** A decoy emu that wanders about and draws the soldiers' fire. */
  datatype Emu = Emu(id: int, x: real, y: real) {
    function Pos(): Point { Point(x, y) }
  }

  /** The closed rectangle of the arena, edges included. */
  predicate InArena(p: Point) {
    0.0 <= p.x <= ArenaWidth && 0.0 <= p.y <= ArenaHeight
  }
}
