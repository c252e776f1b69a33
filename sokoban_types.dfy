/** Types, cell codes and constants of the Sokoban engine (sokoban.h). */
module SokobanTypes {

  /** Size of the undo window: at most this many moves can be taken back. */
  const MaxStepsUndo: nat := 32
  /** Number of the last level; only the level menu of the user interface
      reads it, which is not part of this model. */
  const MaxLevel: nat := 20

  // Cell codes (sokoban_items). The field layer only holds Empty, Wall and
  // Point; the box layer only Empty and Box; PointBox appears in level files.
  const Empty: int := 0
  const Wall: int := 1
  const Point: int := 2
  const Box: int := 3
  const PointBox: int := 4

  /** The direction of a move (sokoban_move). */
  datatype Direction = NoMove | Up | Right | Down | Left

  /** The numeric value of each direction in the source's enum. */
  function DirectionCode(d: Direction): (c: int)
    ensures 0 <= c <= 4
    ensures c == 0 <==> d == NoMove
  {
    match d
    case NoMove => 0
    case Up => 1
    case Right => 2
    case Down => 3
    case Left => 4
  }

  /** Distinct directions have distinct codes, so a code names one direction. */
  lemma DirectionCodesDistinct(d1: Direction, d2: Direction)
    ensures DirectionCode(d1) == DirectionCode(d2) <==> d1 == d2
  {
  }

  /** The one-cell displacement (row, column) a direction stands for. */
  function Delta(d: Direction): (r: (int, int))
    ensures d == NoMove <==> r == (0, 0)
    ensures d != NoMove ==> Adjacent(0, 0, r.0, r.1)
    ensures d == Up || d == Down <==> r.1 == 0 && r.0 != 0
  {
    match d
    case NoMove => (0, 0)
    case Up => (-1, 0)
    case Right => (0, 1)
    case Down => (1, 0)
    case Left => (0, -1)
  }

  /** (y1, x1) and (y2, x2) are distinct cells sharing a side. */
  predicate Adjacent(y1: int, x1: int, y2: int, x2: int) {
    (y1 == y2 && (x2 == x1 + 1 || x2 == x1 - 1)) ||
    (x1 == x2 && (y2 == y1 + 1 || y2 == y1 - 1))
  }

  /** One undo entry: the player's position before a move and whether that
      move pushed a box. */
  datatype Step = Step(y: int, x: int, boxMoved: bool)

  datatype Option<T> = None | Some(value: T)

  datatype LoadError = NotFound | Truncated | BadSize | BadStart

  datatype Result<T> = Ok(value: T) | Err(error: LoadError)
}
