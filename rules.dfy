/** The game-state engine of sokoban.c as a specification over values:
    move resolution with box pushing, the bounded undo history, undo and the
    win check. The imperative engine (module Engine) is proved against it. */
module Rules {
  import opened SokobanTypes

  /** What a level file or a save snapshot holds: the level number, the grid
      size, the player's cell and the two row-major layers. */
  datatype Board = Board(level: int, rows: int, cols: int, py: int, px: int,
                         field: seq<int>, boxes: seq<int>)

  /** The whole game state; history is newest-first. */
  datatype State = State(board: Board, stepsCount: int, history: seq<Step>)

  /** Row-major index of cell (y, x). */
  function Idx(cols: int, y: int, x: int): int {
    y * cols + x
  }

  predicate InBounds(b: Board, y: int, x: int) {
    0 <= y < b.rows && 0 <= x < b.cols
  }

  /** Both layers hold exactly rows * cols cells. */
  ghost predicate Sized(b: Board) {
    b.rows > 0 && b.cols > 0 &&
    |b.field| == b.rows * b.cols && |b.boxes| == b.rows * b.cols
  }

  lemma IndexInRange(rows: int, cols: int, y: int, x: int)
    requires 0 <= y < rows && 0 <= x < cols
    ensures 0 <= Idx(cols, y, x) < rows * cols
  {
    MulStep(y, rows, cols);
    MulNonneg(y, cols);
  }

  lemma IndexInjective(cols: int, y1: int, x1: int, y2: int, x2: int)
    requires 0 <= x1 < cols && 0 <= x2 < cols
    requires Idx(cols, y1, x1) == Idx(cols, y2, x2)
    ensures y1 == y2 && x1 == x2
  {
    if y1 < y2 {
      MulStep(y1, y2, cols);
    } else if y2 < y1 {
      MulStep(y2, y1, cols);
    }
  }

  lemma MulStep(a: int, b: int, c: int)
    requires a < b && c > 0
    ensures a * c + c <= b * c
  {
    var k := b - a;
    assert b * c == a * c + k * c;
    MulAtLeast(k, c);
  }

  lemma {:induction false} MulAtLeast(k: int, c: int)
    requires k >= 1 && c > 0
    ensures k * c >= c
    decreases k
  {
    if k > 1 {
      MulAtLeast(k - 1, c);
      assert k * c == (k - 1) * c + c;
    }
  }

  /** Row i starts at index i * cols, inside the grid, and row i + 1 starts
      cols cells later. */
  lemma RowStart(rows: int, cols: int, i: int)
    requires 0 <= i <= rows && cols >= 0
    ensures 0 <= i * cols <= rows * cols
    ensures (i + 1) * cols == i * cols + cols
  {
    MulNonneg(i, cols);
    MulNonneg(rows - i, cols);
    assert rows * cols == i * cols + (rows - i) * cols;
  }

  lemma MulNonneg(a: int, b: int)
    requires a >= 0 && b >= 0
    ensures a * b >= 0
  {
  }

  function FieldAt(b: Board, y: int, x: int): int
    requires Sized(b) && InBounds(b, y, x)
  {
    IndexInRange(b.rows, b.cols, y, x);
    b.field[Idx(b.cols, y, x)]
  }

  function BoxAt(b: Board, y: int, x: int): int
    requires Sized(b) && InBounds(b, y, x)
  {
    IndexInRange(b.rows, b.cols, y, x);
    b.boxes[Idx(b.cols, y, x)]
  }

  /** The board invariant: layers of the right size holding only their own
      codes, no box on a wall, the player in bounds and on neither a wall nor
      a box. */
  ghost predicate WellFormedBoard(b: Board) {
    Sized(b) && Layers(b.field, b.boxes) &&
    InBounds(b, b.py, b.px) && FieldAt(b, b.py, b.px) != Wall && BoxAt(b, b.py, b.px) != Box
  }

  /** The two layers have the same length, hold only their own codes, and no
      box stands on a wall. */
  ghost predicate Layers(field: seq<int>, boxes: seq<int>) {
    |field| == |boxes| &&
    (forall i :: 0 <= i < |field| ==> field[i] == Empty || field[i] == Wall || field[i] == Point) &&
    (forall i :: 0 <= i < |boxes| ==> boxes[i] == Empty || boxes[i] == Box) &&
    (forall i :: 0 <= i < |field| && field[i] == Wall ==> boxes[i] != Box)
  }

  /** The state invariant, without the undo chain: a well-formed board, at
      most MaxStepsUndo history entries and no more entries than steps. */
  ghost predicate WellFormed(s: State) {
    WellFormedBoard(s.board) && |s.history| <= MaxStepsUndo && |s.history| <= s.stepsCount
  }

  // ---------------------------------------------------------------------
  // Move resolution (s_move_player)

  /** The move is accepted: the target cell is on the grid and not a wall, and
      a box on it can be pushed to a cell that is on the grid, not a wall and
      holds no box. */
  ghost predicate CanMove(b: Board, d: Direction)
    requires Sized(b)
  {
    var dy, dx := Delta(d).0, Delta(d).1;
    var ty, tx := b.py + dy, b.px + dx;
    InBounds(b, ty, tx) && FieldAt(b, ty, tx) != Wall &&
    (BoxAt(b, ty, tx) == Box ==>
       InBounds(b, ty + dy, tx + dx) && FieldAt(b, ty + dy, tx + dx) != Wall &&
       BoxAt(b, ty + dy, tx + dx) != Box)
  }

  /** Prepend an entry to the newest-first history, then drop the oldest
      entry when the window overflows (s_add_step, then s_list_rpop). */
  function PushStep(h: seq<Step>, e: Step): (r: seq<Step>)
    ensures |r| == if |h| < MaxStepsUndo then |h| + 1 else |h|
    ensures r[0] == e && r[1..] == h[..|r| - 1]
    ensures |h| <= MaxStepsUndo ==> |r| <= MaxStepsUndo
  {
    var added := [e] + h;
    if |added| > MaxStepsUndo then added[..|added| - 1] else added
  }

  /** The state after s_move_player(d). */
  ghost function Moved(s: State, d: Direction): State
    requires Sized(s.board) && d != NoMove
  {
    if !CanMove(s.board, d) then s
    else
      var dy, dx := Delta(d).0, Delta(d).1;
      var b := s.board;
      var ty, tx := b.py + dy, b.px + dx;
      IndexInRange(b.rows, b.cols, ty, tx);
      var pushed := b.boxes[Idx(b.cols, ty, tx)] == Box;
      var boxes :=
        if pushed then
          (IndexInRange(b.rows, b.cols, ty + dy, tx + dx);
           b.boxes[Idx(b.cols, ty, tx) := Empty][Idx(b.cols, ty + dy, tx + dx) := Box])
        else b.boxes;
      State(b.(py := ty, px := tx, boxes := boxes), s.stepsCount + 1, PushStep(s.history, Step(b.py, b.px, pushed)))
  }

  // ---------------------------------------------------------------------
  // Undo (s_step_back)

  /** The newest entry can be undone: its saved cell is on the grid next to
      the player, and when it pushed a box, that box is one cell further on. */
  ghost predicate StepOk(s: State)
    requires Sized(s.board)
  {
    s.history != [] &&
    var e, b := s.history[0], s.board;
    var ny, nx := b.py + (b.py - e.y), b.px + (b.px - e.x);
    InBounds(b, e.y, e.x) && Adjacent(e.y, e.x, b.py, b.px) &&
    (e.boxMoved ==> InBounds(b, ny, nx) && BoxAt(b, ny, nx) == Box)
  }

  /** The state after s_step_back on a non-empty history. */
  ghost function Undone(s: State): (r: State)
    requires Sized(s.board) && StepOk(s)
    ensures r.board.level == s.board.level && r.board.rows == s.board.rows && r.board.cols == s.board.cols
    ensures r.board.field == s.board.field && |r.board.boxes| == |s.board.boxes|
    ensures |r.history| == |s.history| - 1
  {
    var e, b := s.history[0], s.board;
    var dy, dx := b.py - e.y, b.px - e.x;
    var boxes :=
      if e.boxMoved then
        (IndexInRange(b.rows, b.cols, b.py + dy, b.px + dx);
         IndexInRange(b.rows, b.cols, b.py, b.px);
         b.boxes[Idx(b.cols, b.py + dy, b.px + dx) := Empty][Idx(b.cols, b.py, b.px) := Box])
      else b.boxes;
    State(b.(py := e.y, px := e.x, boxes := boxes), s.stepsCount - 1, s.history[1..])
  }

  /** The full invariant of a game in play: the state is well-formed and,
      unless the history is empty, its newest entry can be undone and the
      state that undo leads to satisfies the invariant in turn, so that every
      entry of the history can be taken back one after the other. */
  ghost predicate Valid(s: State)
    decreases |s.history|
  {
    WellFormed(s) && (s.history == [] || (StepOk(s) && Valid(Undone(s))))
  }

  // ---------------------------------------------------------------------
  // Win check (s_level_complete)

  /** Every goal cell holds a box. */
  ghost predicate AllGoalsFilled(field: seq<int>, boxes: seq<int>)
    requires |field| == |boxes|
  {
    forall i :: 0 <= i < |field| && field[i] == Point ==> boxes[i] == Box
  }

  /** The number of boxes in a box layer. */
  function CountBoxes(boxes: seq<int>): nat {
    if boxes == [] then 0 else (if boxes[0] == Box then 1 else 0) + CountBoxes(boxes[1..])
  }

  // ---------------------------------------------------------------------
  // Lemmas

  /** Writing one cell changes the box count by what was removed and added. */
  lemma {:induction false} CountBoxesUpdate(bs: seq<int>, i: int, v: int)
    requires 0 <= i < |bs|
    ensures CountBoxes(bs[i := v]) ==
            CountBoxes(bs) - (if bs[i] == Box then 1 else 0) + (if v == Box then 1 else 0)
  {
    if i > 0 {
      CountBoxesUpdate(bs[1..], i - 1, v);
      assert bs[i := v][1..] == bs[1..][i - 1 := v];
    } else {
      assert bs[i := v][1..] == bs[1..];
    }
  }

  /** Rejected moves (target off the grid, a wall, or a box that cannot be
      pushed) change nothing; an accepted move changes the state. */
  lemma MoveRejected(s: State, d: Direction)
    requires WellFormed(s) && d != NoMove
    ensures var dy, dx := Delta(d).0, Delta(d).1;
            var b := s.board;
            var ty, tx := b.py + dy, b.px + dx;
            (!InBounds(b, ty, tx) ==> Moved(s, d) == s) &&
            (InBounds(b, ty, tx) && FieldAt(b, ty, tx) == Wall ==> Moved(s, d) == s) &&
            ((InBounds(b, ty, tx) && BoxAt(b, ty, tx) == Box &&
              (!InBounds(b, ty + dy, tx + dx) || FieldAt(b, ty + dy, tx + dx) == Wall ||
               BoxAt(b, ty + dy, tx + dx) == Box)) ==> Moved(s, d) == s)
    ensures Moved(s, d) == s <==> !CanMove(s.board, d)
  {
  }

  /** An accepted move shifts the player by the direction's unit delta, counts
      one more step, records the prior position and whether a box was pushed,
      clears the box from the target and puts it one cell further on, and
      touches no other cell. */
  lemma MoveAccepted(s: State, d: Direction)
    requires WellFormed(s) && d != NoMove && CanMove(s.board, d)
    ensures var dy, dx := Delta(d).0, Delta(d).1;
            var b, t := s.board, Moved(s, d);
            var ty, tx := b.py + dy, b.px + dx;
            var pushed := BoxAt(b, ty, tx) == Box;
            t.board.py == b.py + dy && t.board.px == b.px + dx &&
            t.stepsCount == s.stepsCount + 1 &&
            t.board.level == b.level && t.board.rows == b.rows && t.board.cols == b.cols &&
            t.board.field == b.field &&
            BoxLayerChange(b.boxes, t.board.boxes, Idx(b.cols, ty, tx),
                           if pushed then Some(Idx(b.cols, ty + dy, tx + dx)) else None) &&
            |t.history| == (if |s.history| < MaxStepsUndo then |s.history| + 1 else MaxStepsUndo) &&
            t.history[0] == Step(b.py, b.px, pushed) &&
            t.history[1..] == s.history[..|t.history| - 1]
  {
    var dy, dx := Delta(d).0, Delta(d).1;
    var b := s.board;
    var ty, tx := b.py + dy, b.px + dx;
    var after := Moved(s, d).board.boxes;
    var i1 := Idx(b.cols, ty, tx);
    IndexInRange(b.rows, b.cols, ty, tx);
    if BoxAt(b, ty, tx) == Box {
      PushTargetsDistinct(b, d);
      IndexInRange(b.rows, b.cols, ty + dy, tx + dx);
      var i2 := Idx(b.cols, ty + dy, tx + dx);
      assert after == b.boxes[i1 := Empty][i2 := Box];
      assert BoxLayerChange(b.boxes, after, i1, Some(i2));
    } else {
      assert after == b.boxes;
      assert BoxLayerChange(b.boxes, after, i1, None);
    }
  }

  /** The box layer after a move: the target cell `from` holds no box, the
      cell `to` (when a box was pushed) holds one, and no other cell changed. */
  ghost predicate BoxLayerChange(before: seq<int>, after: seq<int>, from: int, to: Option<int>) {
    |after| == |before| && 0 <= from < |after| && after[from] == Empty &&
    (to.Some? ==> 0 <= to.value < |after| && to.value != from && after[to.value] == Box) &&
    forall i :: 0 <= i < |before| && i != from && (to.None? || i != to.value) ==> after[i] == before[i]
  }

  /** A state that differs from s exactly as an accepted move prescribes,
      with the target cell and the push destination given by their row-major
      indices, is the state Moved computes. */
  lemma MovedAt(s: State, d: Direction, target: int, next: int, t: State)
    requires Sized(s.board) && d != NoMove && CanMove(s.board, d)
    requires var b := s.board;
             target == Idx(b.cols, b.py + Delta(d).0, b.px + Delta(d).1) &&
             (0 <= target < |b.boxes| && b.boxes[target] == Box ==>
                next == Idx(b.cols, b.py + Delta(d).0 + Delta(d).0, b.px + Delta(d).1 + Delta(d).1))
    requires var b, pushed := s.board, 0 <= target < |s.board.boxes| && s.board.boxes[target] == Box;
             t.board.level == b.level && t.board.rows == b.rows && t.board.cols == b.cols &&
             t.board.py == b.py + Delta(d).0 && t.board.px == b.px + Delta(d).1 &&
             t.board.field == b.field && (pushed ==> 0 <= next < |b.boxes|) &&
             t.board.boxes == (if pushed then b.boxes[target := Empty][next := Box] else b.boxes) &&
             t.stepsCount == s.stepsCount + 1 &&
             t.history == PushStep(s.history, Step(b.py, b.px, pushed))
    ensures t == Moved(s, d)
  {
    var b := s.board;
    IndexInRange(b.rows, b.cols, b.py + Delta(d).0, b.px + Delta(d).1);
  }

  /** The target cell and the push destination are different cells. */
  lemma PushTargetsDistinct(b: Board, d: Direction)
    requires Sized(b) && d != NoMove
    requires var dy, dx := Delta(d).0, Delta(d).1;
             InBounds(b, b.py + dy, b.px + dx) && InBounds(b, b.py + dy + dy, b.px + dx + dx)
    ensures var dy, dx := Delta(d).0, Delta(d).1;
            Idx(b.cols, b.py + dy, b.px + dx) != Idx(b.cols, b.py + dy + dy, b.px + dx + dx)
  {
    var dy, dx := Delta(d).0, Delta(d).1;
    if Idx(b.cols, b.py + dy, b.px + dx) == Idx(b.cols, b.py + dy + dy, b.px + dx + dx) {
      IndexInjective(b.cols, b.py + dy, b.px + dx, b.py + dy + dy, b.px + dx + dx);
    }
  }

  /** Moves keep the state well-formed: no box lands on a wall or another box,
      the player stays on the grid off walls and boxes, and the history stays
      within the window. */
  lemma MovedWellFormed(s: State, d: Direction)
    requires WellFormed(s) && d != NoMove
    ensures WellFormed(Moved(s, d))
  {
    if CanMove(s.board, d) {
      var b := s.board;
      if BoxAt(b, b.py + Delta(d).0, b.px + Delta(d).1) == Box {
        PushWellFormed(s, d);
      } else {
        StepWellFormed(s, d);
      }
    }
  }

  /** MovedWellFormed for a move that pushes a box. */
  lemma PushWellFormed(s: State, d: Direction)
    requires WellFormed(s) && d != NoMove && CanMove(s.board, d)
    requires BoxAt(s.board, s.board.py + Delta(d).0, s.board.px + Delta(d).1) == Box
    ensures WellFormed(Moved(s, d))
  {
    var dy, dx := Delta(d).0, Delta(d).1;
    var b := s.board;
    IndexInRange(b.rows, b.cols, b.py + dy, b.px + dx);
    IndexInRange(b.rows, b.cols, b.py + dy + dy, b.px + dx + dx);
    PushTargetsDistinct(b, d);
    var i1 := Idx(b.cols, b.py + dy, b.px + dx);
    var i2 := Idx(b.cols, b.py + dy + dy, b.px + dx + dx);
    var t := State(b.(py := b.py + dy, px := b.px + dx, boxes := b.boxes[i1 := Empty][i2 := Box]),
                   s.stepsCount + 1, PushStep(s.history, Step(b.py, b.px, true)));
    MovedAt(s, d, i1, i2, t);
    ShiftWellFormed(s, t, i1, i2);
  }

  /** MovedWellFormed for a move onto a cell without a box. */
  lemma StepWellFormed(s: State, d: Direction)
    requires WellFormed(s) && d != NoMove && CanMove(s.board, d)
    requires BoxAt(s.board, s.board.py + Delta(d).0, s.board.px + Delta(d).1) != Box
    ensures WellFormed(Moved(s, d))
  {
    var dy, dx := Delta(d).0, Delta(d).1;
    var b := s.board;
    IndexInRange(b.rows, b.cols, b.py + dy, b.px + dx);
    var i1 := Idx(b.cols, b.py + dy, b.px + dx);
    var t := State(b.(py := b.py + dy, px := b.px + dx),
                   s.stepsCount + 1, PushStep(s.history, Step(b.py, b.px, false)));
    MovedAt(s, d, i1, 0, t);
    ShiftWellFormed(s, t, i1, 0);
  }

  /** The well-formedness half of MovedWellFormed, over explicit values. */
  lemma ShiftWellFormed(s: State, t: State, i1: int, i2: int)
    requires WellFormed(s) && Sized(t.board)
    requires t.board.rows == s.board.rows && t.board.cols == s.board.cols && t.board.field == s.board.field
    requires InBounds(t.board, t.board.py, t.board.px)
    requires i1 == Idx(t.board.cols, t.board.py, t.board.px) && 0 <= i1 < |s.board.boxes|
    requires s.board.field[i1] != Wall
    requires s.board.boxes[i1] == Box ==>
               0 <= i2 < |s.board.boxes| && i1 != i2 && s.board.field[i2] != Wall && s.board.boxes[i2] != Box &&
                                         t.board.boxes == s.board.boxes[i1 := Empty][i2 := Box]
    requires s.board.boxes[i1] != Box ==> t.board.boxes == s.board.boxes
    requires |t.history| <= MaxStepsUndo && |t.history| <= t.stepsCount
    ensures WellFormed(t)
  {
    if s.board.boxes[i1] == Box {
      LayersAfterPush(s.board.field, s.board.boxes, i1, i2);
    }
  }

  /** Moving a box to a cell that is not a wall and holds no box keeps the
      layers well-formed. */
  lemma LayersAfterPush(field: seq<int>, boxes: seq<int>, from: int, to: int)
    requires Layers(field, boxes) && 0 <= from < |boxes| && 0 <= to < |boxes|
    requires field[to] != Wall
    ensures Layers(field, boxes[from := Empty][to := Box])
  {
  }

  /** A change of the box layer that moves one box, or clears a cell that
      holds none, keeps the number of boxes. */
  lemma BoxLayerChangeCount(before: seq<int>, after: seq<int>, from: int, to: Option<int>)
    requires BoxLayerChange(before, after, from, to)
    requires to.Some? <==> before[from] == Box
    requires to.Some? ==> before[to.value] != Box
    ensures CountBoxes(after) == CountBoxes(before)
  {
    CountBoxesUpdate(before, from, Empty);
    var cleared := before[from := Empty];
    if to.Some? {
      CountBoxesUpdate(cleared, to.value, Box);
      assert after == cleared[to.value := Box];
    } else {
      assert after == cleared;
    }
  }

  /** A move keeps the number of boxes. */
  lemma MovedKeepsBoxCount(s: State, d: Direction)
    requires WellFormed(s) && d != NoMove
    ensures CountBoxes(Moved(s, d).board.boxes) == CountBoxes(s.board.boxes)
  {
    if CanMove(s.board, d) {
      MoveAccepted(s, d);
      var dy, dx := Delta(d).0, Delta(d).1;
      var b := s.board;
      var ty, tx := b.py + dy, b.px + dx;
      var pushed := BoxAt(b, ty, tx) == Box;
      BoxLayerChangeCount(b.boxes, Moved(s, d).board.boxes, Idx(b.cols, ty, tx),
                          if pushed then Some(Idx(b.cols, ty + dy, tx + dx)) else None);
    }
  }

  /** Undo right after an accepted move restores the board (player and boxes)
      and the step count, and leaves the history as it was, minus its oldest
      entry when the move evicted one. */
  lemma UndoAfterMove(s: State, d: Direction)
    requires WellFormed(s) && d != NoMove && CanMove(s.board, d)
    ensures Sized(Moved(s, d).board) && StepOk(Moved(s, d))
    ensures var t := Undone(Moved(s, d));
            t.board == s.board && t.stepsCount == s.stepsCount &&
            t.history == s.history[..|Moved(s, d).history| - 1]
  {
    var dy, dx := Delta(d).0, Delta(d).1;
    var b, t := s.board, Moved(s, d);
    var ty, tx := b.py + dy, b.px + dx;
    IndexInRange(b.rows, b.cols, ty, tx);
    var i1 := Idx(b.cols, ty, tx);
    if b.boxes[i1] == Box {
      IndexInRange(b.rows, b.cols, ty + dy, tx + dx);
      PushTargetsDistinct(b, d);
      var i2 := Idx(b.cols, ty + dy, tx + dx);
      assert t.board.boxes == b.boxes[i1 := Empty][i2 := Box];
      assert StepOk(t);
      assert b.boxes[i2] == Empty;
      assert t.board.boxes[i2 := Empty][i1 := Box] == b.boxes;
    }
  }

  /** Dropping the oldest history entries keeps every remaining undo safe. */
  lemma {:induction false} ValidTruncated(s: State, k: nat)
    requires Valid(s) && k <= |s.history|
    ensures Valid(s.(history := s.history[..k]))
    decreases k
  {
    var s' := s.(history := s.history[..k]);
    if k > 0 {
      var u := Undone(s);
      assert Undone(s') == u.(history := u.history[..k - 1]);
      ValidTruncated(u, k - 1);
    }
  }

  /** An accepted or rejected move keeps the full invariant, undo chain
      included. */
  lemma MovePreservesValid(s: State, d: Direction)
    requires Valid(s) && d != NoMove
    ensures Valid(Moved(s, d))
  {
    if CanMove(s.board, d) {
      var t := Moved(s, d);
      MovedWellFormed(s, d);
      UndoAfterMove(s, d);
      ValidTruncated(s, |t.history| - 1);
      assert Undone(t) == s.(history := s.history[..|t.history| - 1]);
    }
  }

  /** Undo keeps the full invariant and the number of boxes, removes exactly
      the newest entry, puts the player back on the saved cell and counts one
      step less. */
  lemma UndoPreservesValid(s: State)
    requires Valid(s) && s.history != []
    ensures StepOk(s) && Valid(Undone(s))
    ensures CountBoxes(Undone(s).board.boxes) == CountBoxes(s.board.boxes)
    ensures Undone(s).history == s.history[1..]
    ensures Undone(s).board.py == s.history[0].y && Undone(s).board.px == s.history[0].x
    ensures Undone(s).stepsCount == s.stepsCount - 1
    ensures Undone(s).board.field == s.board.field
  {
    var e, b := s.history[0], s.board;
    var ny, nx := b.py + (b.py - e.y), b.px + (b.px - e.x);
    if e.boxMoved {
      IndexInRange(b.rows, b.cols, ny, nx);
      IndexInRange(b.rows, b.cols, b.py, b.px);
      if Idx(b.cols, ny, nx) == Idx(b.cols, b.py, b.px) {
        IndexInjective(b.cols, ny, nx, b.py, b.px);
      }
      CountBoxesUpdate(b.boxes, Idx(b.cols, ny, nx), Empty);
      CountBoxesUpdate(b.boxes[Idx(b.cols, ny, nx) := Empty], Idx(b.cols, b.py, b.px), Box);
    }
  }
}
