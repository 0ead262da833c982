/** Cell classes and compass directions (include/maze.h). */
module Compass {

  /** The contents of one maze cell: an unsigned char. */
  type Object = o: int | 0 <= o < 256

  /** 'A' .. 'Z'. */
  type Avatar = o: Object | 65 <= o <= 90 witness 65

  /** Avatars are the upper-case letters. */
  const NUM_AVATARS := 26

  const EMPTY: Object := 32

  predicate IsEmpty(o: Object) {
    o == EMPTY
  }

  predicate IsAvatar(o: Object) {
    65 <= o <= 90
  }

  /** Whatever is neither blank nor an avatar stays where the template put it. */
  predicate IsSolid(o: Object) {
    !IsEmpty(o) && !IsAvatar(o)
  }

  type Direction = d: int | 0 <= d < 4

  const NUM_DIRECTIONS := 4
  const NORTH: Direction := 0
  const WEST: Direction := 1
  const SOUTH: Direction := 2
  const EAST: Direction := 3

  function TurnLeft(d: Direction): Direction {
    if d == EAST then NORTH else d + 1
  }

  function TurnRight(d: Direction): Direction {
    if d == NORTH then EAST else d - 1
  }

  function Reverse(d: Direction): Direction {
    if d < 2 then d + 2 else d - 2
  }

  /** Row increment of one step. */
  function Dr(d: Direction): int {
    if d == NORTH then -1 else if d == SOUTH then 1 else 0
  }

  /** Column increment of one step. */
  function Dc(d: Direction): int {
    if d == WEST then -1 else if d == EAST then 1 else 0
  }

  datatype Option<+T> = None | Some(value: T)

  /** For every avatar, which thread or record has it. */
  type Slots = s: seq<Option<nat>> | |s| == NUM_AVATARS witness seq(NUM_AVATARS, _ => None)

  /** A cell address; it may lie outside the maze. */
  datatype Pos = Pos(row: int, col: int) {

    /** The address `n` cells away in direction `d`. */
    function Ahead(d: Direction, n: int): Pos {
      if d == NORTH then Pos(row - n, col)
      else if d == WEST then Pos(row, col - n)
      else if d == SOUTH then Pos(row + n, col)
      else Pos(row, col + n)
    }

    predicate Before(q: Pos) {
      row < q.row || (row == q.row && col < q.col)
    }
  }

  /** The increments of src/maze.c, scaled, are the same walk. */
  lemma IncrementsWalk(p: Pos, d: Direction, n: int)
    ensures Pos(p.row + Dr(d) * n, p.col + Dc(d) * n) == p.Ahead(d, n)
  {
    if d == NORTH { assert Dr(d) * n == -n; }
    else if d == WEST { assert Dc(d) * n == -n; }
  }

  /** Turning is quarter rotation of the step vector: a left turn and a right turn undo each other,
      two equal turns reverse, and going back along the reversed direction returns to the start.  */
  lemma TurnsRotateTheStep(d: Direction, p: Pos, n: int)
    ensures TurnLeft(TurnRight(d)) == d == TurnRight(TurnLeft(d))
    ensures TurnLeft(TurnLeft(d)) == Reverse(d) == TurnRight(TurnRight(d))
    ensures Dr(TurnLeft(d)) == -Dc(d) && Dc(TurnLeft(d)) == Dr(d)
    ensures TurnLeft(Reverse(d)) == TurnRight(d)
    ensures p.Ahead(d, n).Ahead(Reverse(d), n) == p == p.Ahead(Reverse(d), n).Ahead(d, n)
    ensures p.Ahead(d, 1) == Pos(p.row + Dr(d), p.col + Dc(d))
  {
  }
}
