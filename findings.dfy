/** The move guard of s_move_player exactly as sokoban.c evaluates it, set
    against the corrected guard Rules.CanMove that the engine uses. */
module SourceFindings {
  import opened SokobanTypes
  import opened Rules

  /** The guard as written, evaluated left to right with short-circuiting:
      Some(accept) when every cell it reads lies inside the layers, None
      when it reads outside them. Its column test admits x == cols, and the
      push destination is read without any bounds test. */
  function GuardAsWritten(b: Board, d: Direction): (r: Option<bool>)
    requires |b.field| == |b.boxes|
  {
    var dy, dx := Delta(d).0, Delta(d).1;
    var ty, tx := b.py + dy, b.px + dx;
    if ty < 0 || ty > b.rows - 1 || tx < 0 || tx > b.cols then Some(false)
    else
      var i := Idx(b.cols, ty, tx);
      if !(0 <= i < |b.field|) then None
      else if b.field[i] == Wall then Some(false)
      else if b.boxes[i] != Box then Some(true)
      else
        var j := Idx(b.cols, ty + dy, tx + dx);
        if !(0 <= j < |b.field|) then None
        else if b.field[j] == Wall || b.boxes[j] == Box then Some(false)
        else Some(true)
  }

  /** The corrected guard only takes moves away: the guard as written
      accepts every move CanMove accepts, and where the cells it reads lie on
      the grid it accepts exactly those. */
  lemma GuardAsWrittenOnGrid(b: Board, d: Direction)
    requires Sized(b)
    ensures CanMove(b, d) ==> GuardAsWritten(b, d) == Some(true)
    ensures var dy, dx := Delta(d).0, Delta(d).1;
            var ty, tx := b.py + dy, b.px + dx;
            (GuardAsWritten(b, d) == Some(true) && InBounds(b, ty, tx) &&
             (BoxAt(b, ty, tx) == Box ==> InBounds(b, ty + dy, tx + dx))) ==>
              CanMove(b, d)
  {
    var dy, dx := Delta(d).0, Delta(d).1;
    var ty, tx := b.py + dy, b.px + dx;
    if InBounds(b, ty, tx) {
      IndexInRange(b.rows, b.cols, ty, tx);
      if InBounds(b, ty + dy, tx + dx) {
        IndexInRange(b.rows, b.cols, ty + dy, tx + dx);
      }
    }
  }

  /** Two rows of two empty cells, the player in the top-right corner. */
  const OpenBoard := Board(1, 2, 2, 0, 1, [0, 0, 0, 0], [0, 0, 0, 0])

  /** The column test lets the player step off the right edge: on the 2x2
      board, moving Right from column 1 is accepted, the cell it checks
      is the first cell of the next row, and the player ends in column 2. */
  lemma ColumnTestAdmitsOffGrid()
    ensures GuardAsWritten(OpenBoard, Right) == Some(true)
    ensures !CanMove(OpenBoard, Right)
    ensures !InBounds(OpenBoard, 0, 2) && Idx(2, 0, 2) == Idx(2, 1, 0)
  {
    assert Delta(Right) == (0, 1);
  }

  /** One row of two cells, the player left of a box at the right edge. */
  const EdgeBoxBoard := Board(1, 1, 2, 0, 0, [0, 0], [0, 3])

  /** The push destination is read without a bounds test: pushing the box
      at the right edge of the one-row board reads index 2 of two-cell layers. */
  lemma PushReadsPastEnd()
    ensures GuardAsWritten(EdgeBoxBoard, Right) == None
    ensures !CanMove(EdgeBoxBoard, Right)
    ensures Idx(2, 0, 2) == |EdgeBoxBoard.boxes|
  {
    assert Delta(Right) == (0, 1);
    assert BoxAt(EdgeBoxBoard, 0, 1) == Box;
  }

  /** Both example boards are playable: the layers are well-formed and the
      player stands on the grid, on neither a wall nor a box. */
  lemma ExampleBoardsPlayable()
    ensures WellFormedBoard(OpenBoard) && WellFormedBoard(EdgeBoxBoard)
  {
  }

  /** What the corrected guard promises: an accepted move targets a cell on
      the grid whose index lies inside the layers, and a box is only pushed
      to another such cell. */
  lemma CanMoveStaysOnGrid(b: Board, d: Direction)
    requires Sized(b) && CanMove(b, d)
    ensures var dy, dx := Delta(d).0, Delta(d).1;
            var ty, tx := b.py + dy, b.px + dx;
            InBounds(b, ty, tx) && 0 <= Idx(b.cols, ty, tx) < |b.boxes| &&
            (b.boxes[Idx(b.cols, ty, tx)] == Box ==>
               InBounds(b, ty + dy, tx + dx) && 0 <= Idx(b.cols, ty + dy, tx + dx) < |b.boxes|)
  {
    var dy, dx := Delta(d).0, Delta(d).1;
    var ty, tx := b.py + dy, b.px + dx;
    IndexInRange(b.rows, b.cols, ty, tx);
    if b.boxes[Idx(b.cols, ty, tx)] == Box {
      IndexInRange(b.rows, b.cols, ty + dy, tx + dx);
    }
  }
}
