/** The imperative engine of sokoban.c: the undo list and the game record,
    updated in place and proved against the specification in Rules. */
module Engine {
  import opened SokobanTypes
  import opened Rules
  import opened LevelFormat

  /** The undo list (List): entries newest first, so the first entry is the
      list's `first` node and the last entry its `last` node; `length` is the
      counter kept beside the nodes. */
  class StepList {
    var entries: seq<Step>
    var length: int

    ghost predicate Valid()
      reads this
    {
      length == |entries|
    }

    /** s_steps_init: an empty list. */
    constructor ()
      ensures Valid() && entries == []
    {
      entries := [];
      length := 0;
    }

    /** s_add_step: the new entry becomes the first one. */
    method Add(e: Step)
      requires Valid()
      modifies this
      ensures Valid() && entries == [e] + old(entries)
    {
      entries := [e] + entries;
      length := length + 1;
    }

    /** s_list_rpop: drop the last (oldest) entry; an empty list is left
        alone. */
    method RPop()
      requires Valid()
      modifies this
      ensures Valid()
      ensures entries == if old(entries) == [] then [] else old(entries)[..|old(entries)| - 1]
    {
      if entries != [] {
        entries := entries[..|entries| - 1];
        length := length - 1;
      }
    }

    /** The recording step of s_move_player: s_add_step, then s_list_rpop
        when the list has grown past the undo window. */
    method Record(e: Step)
      requires Valid()
      modifies this
      ensures Valid() && entries == PushStep(old(entries), e)
    {
      Add(e);
      if length > MaxStepsUndo {
        RPop();
      }
    }

    /** The list part of s_step_back: detach and return the first entry, or
        nothing when the list is empty. */
    method PopFirst() returns (e: Option<Step>)
      requires Valid()
      modifies this
      ensures Valid()
      ensures old(entries) == [] ==> e == None && entries == []
      ensures old(entries) != [] ==> e == Some(old(entries)[0]) && entries == old(entries)[1..]
    {
      if entries == [] {
        return None;
      }
      e := Some(entries[0]);
      entries := entries[1..];
      length := length - 1;
    }
  }

  /** The game record (sokoban_game): the two layers are row-major arrays of
      rows * cols cell codes. */
  class Game {
    var level: int
    var rows: int
    var cols: int
    var playerY: int
    var playerX: int
    var boxMoved: bool
    var stepsCount: int
    var field: array<int>
    var boxes: array<int>
    var steps: StepList

    /** The value this game stands for. */
    ghost function Abs(): State
      reads this, field, boxes, steps
    {
      State(Board(level, rows, cols, playerY, playerX, field[..], boxes[..]), stepsCount, steps.entries)
    }

    /** A level is loaded and the state satisfies the invariant of Rules,
        undo chain included. */
    ghost predicate Valid()
      reads this, field, boxes, steps
    {
      field != boxes && steps.Valid() && Rules.Valid(Abs())
    }

    /** s_init_game: level 1 and an empty undo list; no level is loaded until
        ResetLevel succeeds. */
    constructor ()
      ensures level == 1 && stepsCount == 0
      ensures fresh(steps) && steps.Valid() && steps.entries == []
    {
      level := 1;
      rows, cols := 0, 0;
      playerY, playerX := 0, 0;
      boxMoved := false;
      stepsCount := 0;
      field := new int[0];
      boxes := new int[0];
      steps := new StepList();
    }

    /** The guard of s_move_player: the cell moved to (`target`) and, when it
        holds a box, the cell the box goes to (`next`), as row-major indices,
        and whether the move is allowed. */
    method MoveAllowed(d: Direction) returns (ok: bool, target: int, next: int)
      requires Sized(Abs().board)
      ensures ok == CanMove(Abs().board, d)
      ensures ok ==> target == Idx(cols, playerY + Delta(d).0, playerX + Delta(d).1) &&
                     0 <= target < boxes.Length
      ensures ok && boxes[target] == Box ==>
                next == Idx(cols, playerY + Delta(d).0 + Delta(d).0, playerX + Delta(d).1 + Delta(d).1) &&
                0 <= next < boxes.Length
    {
      ghost var b := Abs().board;
      var dy, dx := Delta(d).0, Delta(d).1;
      var ty, tx := playerY + dy, playerX + dx;
      ok, target, next := false, 0, 0;
      if ty < 0 || ty > rows - 1 || tx < 0 || tx > cols - 1 {
        return;
      }
      IndexInRange(rows, cols, ty, tx);
      target := ty * cols + tx;
      assert FieldAt(b, ty, tx) == field[target] && BoxAt(b, ty, tx) == boxes[target];
      if field[target] == Wall {
        return;
      }
      if boxes[target] == Box {
        var ny, nx := ty + dy, tx + dx;
        if ny < 0 || ny > rows - 1 || nx < 0 || nx > cols - 1 {
          return;
        }
        IndexInRange(rows, cols, ny, nx);
        next := ny * cols + nx;
        assert FieldAt(b, ny, nx) == field[next] && BoxAt(b, ny, nx) == boxes[next];
        if field[next] == Wall || boxes[next] == Box {
          return;
        }
      }
      ok := true;
    }

    /** s_move_player: move one cell in direction d, pushing a box when there
        is one, or do nothing when the move is blocked. */
    method MovePlayer(d: Direction)
      requires Valid() && d != NoMove
      modifies this, boxes, steps
      ensures Valid() && field == old(field) && boxes == old(boxes) && steps == old(steps)
      ensures Abs() == Moved(old(Abs()), d)
      ensures !CanMove(old(Abs()).board, d) ==> boxMoved == old(boxMoved)
      ensures CanMove(old(Abs()).board, d) ==> steps.entries != [] && boxMoved == steps.entries[0].boxMoved
    {
      ghost var s := Abs();
      var ok, target, next := MoveAllowed(d);
      assert ok == CanMove(s.board, d);
      if ok {
        Advance(d, target, next);
        assert steps.entries != [] && boxMoved == steps.entries[0].boxMoved;
        MovedAt(s, d, target, next, Abs());
        assert Rules.Valid(Abs()) by {
          MovePreservesValid(s, d);
        }
      }
    }

    /** The accepted branch of s_move_player: push the box on `target` to
        `next` when there is one, record the step, then move the player and
        count the step. */
    method Advance(d: Direction, target: int, next: int)
      requires field != boxes && steps.Valid()
      requires 0 <= target < boxes.Length
      requires boxes[target] == Box ==> 0 <= next < boxes.Length
      modifies this, boxes, steps
      ensures field == old(field) && boxes == old(boxes) && steps == old(steps) && steps.Valid()
      ensures level == old(level) && rows == old(rows) && cols == old(cols)
      ensures playerY == old(playerY) + Delta(d).0 && playerX == old(playerX) + Delta(d).1
      ensures stepsCount == old(stepsCount) + 1
      ensures field[..] == old(field[..])
      ensures boxMoved == (old(boxes[target]) == Box)
      ensures boxes[..] == if boxMoved then old(boxes[..])[target := Empty][next := Box] else old(boxes[..])
      ensures steps.entries == PushStep(old(steps.entries), Step(old(playerY), old(playerX), boxMoved))
    {
      boxMoved := false;
      if boxes[target] == Box {
        PushBox(target, next);
        boxMoved := true;
      }
      steps.Record(Step(playerY, playerX, boxMoved));
      playerY, playerX := playerY + Delta(d).0, playerX + Delta(d).1;
      stepsCount := stepsCount + 1;
    }

    /** The push of s_move_player: the box leaves `target` for `next`. */
    method PushBox(target: int, next: int)
      requires 0 <= target < boxes.Length && 0 <= next < boxes.Length
      modifies boxes
      ensures boxes[..] == old(boxes[..])[target := Empty][next := Box]
    {
      boxes[target] := Empty;
      boxes[next] := Box;
    }

    /** s_step_back: take back the newest move, pulling back the box it
        pushed; nothing happens when the history is empty. */
    method StepBack()
      requires Valid()
      modifies this, boxes, steps
      ensures Valid() && field == old(field) && boxes == old(boxes) && steps == old(steps)
      ensures old(steps.entries) == [] ==> Abs() == old(Abs())
      ensures old(steps.entries) != [] ==> StepOk(old(Abs())) && Abs() == Undone(old(Abs()))
      ensures boxMoved == old(boxMoved)
    {
      ghost var s := Abs();
      var top := steps.PopFirst();
      if top.None? {
        return;
      }
      var e := top.value;
      assert StepOk(s) && Rules.Valid(Undone(s)) by {
        UndoPreservesValid(s);
      }
      if e.boxMoved {
        IndexInRange(rows, cols, playerY + (playerY - e.y), playerX + (playerX - e.x));
        IndexInRange(rows, cols, playerY, playerX);
      }
      TakeBack(e);
    }

    /** The game side of s_step_back once the entry e is detached: count one
        step less, pull the box the move pushed back onto the player's cell,
        and put the player on the saved cell. */
    method TakeBack(e: Step)
      requires field != boxes
      requires e.boxMoved ==>
                 0 <= Idx(cols, playerY + (playerY - e.y), playerX + (playerX - e.x)) < boxes.Length &&
                 0 <= Idx(cols, playerY, playerX) < boxes.Length
      modifies this, boxes
      ensures field == old(field) && boxes == old(boxes) && steps == old(steps)
      ensures level == old(level) && rows == old(rows) && cols == old(cols)
      ensures playerY == e.y && playerX == e.x && stepsCount == old(stepsCount) - 1
      ensures boxMoved == old(boxMoved)
      ensures field[..] == old(field[..])
      ensures boxes[..] ==
                if e.boxMoved
                then old(boxes[..])[Idx(cols, old(playerY) + (old(playerY) - e.y), old(playerX) + (old(playerX) - e.x)) := Empty]
                                   [Idx(cols, old(playerY), old(playerX)) := Box]
                else old(boxes[..])
    {
      stepsCount := stepsCount - 1;
      var y, x := playerY - e.y, playerX - e.x;
      if e.boxMoved {
        boxes[(playerY + y) * cols + playerX + x] := Empty;
        boxes[playerY * cols + playerX] := Box;
      }
      playerY, playerX := e.y, e.x;
    }

    /** s_level_complete: every goal cell holds a box. */
    method LevelComplete() returns (complete: bool)
      requires rows >= 0 && cols >= 0
      requires field.Length == rows * cols && boxes.Length == rows * cols
      ensures complete == AllGoalsFilled(field[..], boxes[..])
      ensures (forall k :: 0 <= k < field.Length ==> field[k] != Point) ==> complete
    {
      var i := 0;
      while i < rows
        invariant 0 <= i <= rows
        invariant forall k :: 0 <= k < i * cols && field[k] == Point ==> boxes[k] == Box
      {
        RowStart(rows, cols, i);
        var j := 0;
        while j < cols
          invariant 0 <= j <= cols
          invariant forall k :: 0 <= k < i * cols + j && field[k] == Point ==> boxes[k] == Box
        {
          var index := i * cols + j;
          if field[index] == Point && boxes[index] != Box {
            assert field[..][index] == Point && boxes[..][index] != Box;
            return false;
          }
          j := j + 1;
        }
        i := i + 1;
      }
      RowStart(rows, cols, rows);
      return true;
    }

    /** s_reset_level: the step count and the undo list start afresh, then
        the level file of the current level is loaded. `contents` is what
        reading that file yields, or None when it cannot be opened. */
    method ResetLevel(contents: Option<seq<int>>) returns (r: Result<Board>)
      modifies this
      ensures r == DecodeLevel(contents)
      ensures fresh(steps) && steps.Valid() && steps.entries == [] && stepsCount == 0
      ensures r.Err? ==> level == old(level) && rows == old(rows) && cols == old(cols) &&
                         playerY == old(playerY) && playerX == old(playerX) &&
                         field == old(field) && boxes == old(boxes)
      ensures r.Err? && old(Valid()) ==> Valid()
      ensures r.Ok? ==> Valid() && fresh(field) && fresh(boxes) && Abs() == State(r.value, 0, [])
    {
      ghost var wasValid := Valid();
      ghost var b0 := Abs().board;
      stepsCount := 0;
      steps := new StepList();
      r := LoadLevel(contents);
      if r.Err? {
        assert Abs() == State(b0, 0, []);
        assert wasValid ==> Rules.Valid(State(b0, 0, []));
      }
    }

    /** s_load_level_from_file: decode the level file into new layers and
        install it, the player on its start cell. A file that cannot be
        opened, ends inside its header, has a non-positive size or puts the
        player off the grid, on a wall or on a box is refused and changes
        nothing. */
    method LoadLevel(contents: Option<seq<int>>) returns (r: Result<Board>)
      requires steps.Valid() && steps.entries == [] && stepsCount == 0
      modifies this
      ensures r == DecodeLevel(contents)
      ensures r.Err? ==> unchanged(this)
      ensures r.Ok? ==> Valid() && fresh(field) && fresh(boxes) && steps == old(steps) &&
                        Abs() == State(r.value, 0, [])
    {
      if contents.None? {
        return Err(NotFound);
      }
      var file := contents.value;
      if |file| < HeaderLength {
        return Err(Truncated);
      }
      var lvl, rs, cs, py, px := file[0], file[1], file[2], file[3], file[4];
      if rs <= 0 || cs <= 0 {
        return Err(BadSize);
      }
      MulNonneg(rs, cs);
      var f, bx := DecodeCells(file, rs * cs);
      var b := Board(lvl, rs, cs, py, px, f[..], bx[..]);
      assert b == Board(lvl, rs, cs, py, px, FieldLayer(file, rs * cs), BoxLayer(file, rs * cs));
      if py < 0 || py > rs - 1 || px < 0 || px > cs - 1 {
        return Err(BadStart);
      }
      IndexInRange(rs, cs, py, px);
      assert FieldAt(b, py, px) == f[py * cs + px] && BoxAt(b, py, px) == bx[py * cs + px];
      if f[py * cs + px] == Wall || bx[py * cs + px] == Box {
        return Err(BadStart);
      }
      r := Ok(b);
      assert r == DecodeLevel(contents);
      Install(b, f, bx);
    }

    /** The end of s_load_level_from_file: the decoded board replaces the
        old one, next to the zero step count and empty undo list. */
    method Install(b: Board, f: array<int>, bx: array<int>)
      requires WellFormedBoard(b) && f != bx && f[..] == b.field && bx[..] == b.boxes
      requires steps.Valid() && steps.entries == [] && stepsCount == 0
      modifies this
      ensures field == f && boxes == bx && steps == old(steps)
      ensures Valid() && Abs() == State(b, 0, [])
    {
      level, rows, cols, playerY, playerX := b.level, b.rows, b.cols, b.py, b.px;
      field, boxes := f, bx;
    }

    /** The cell loop of s_load_level_from_file: decode the first n cell
        bytes of a level file into a new field layer and a new box layer. */
    static method DecodeCells(file: seq<int>, n: nat) returns (f: array<int>, bx: array<int>)
      ensures fresh(f) && fresh(bx) && f != bx
      ensures f[..] == FieldLayer(file, n) && bx[..] == BoxLayer(file, n)
    {
      f := new int[n];
      bx := new int[n];
      var i := 0;
      while i < n
        invariant 0 <= i <= n
        invariant forall k :: 0 <= k < i ==> f[k] == DecodeCell(CellByte(file, k)).0
        invariant forall k :: 0 <= k < i ==> bx[k] == DecodeCell(CellByte(file, k)).1
      {
        var x := if HeaderLength + i < |file| then file[HeaderLength + i] else Empty;
        var (fc, bc) := DecodeCell(x);
        f[i], bx[i] := fc, bc;
        i := i + 1;
      }
    }

    /** s_save_game: the snapshot written for this game. */
    method SaveGame() returns (data: seq<int>)
      requires field.Length == Cells(rows, cols) && boxes.Length == Cells(rows, cols)
      ensures data == Serialise(Abs().board)
    {
      data := [level, rows, cols, playerY, playerX];
      var n := rows * cols;
      var i := 0;
      while i < n
        invariant 0 <= i <= field.Length
        invariant data == [level, rows, cols, playerY, playerX] + field[..i]
      {
        data := data + [field[i]];
        i := i + 1;
      }
      assert field[..i] == field[..];
      i := 0;
      while i < n
        invariant 0 <= i <= boxes.Length
        invariant data == [level, rows, cols, playerY, playerX] + field[..] + boxes[..i]
      {
        data := data + [boxes[i]];
        i := i + 1;
      }
      assert boxes[..i] == boxes[..];
    }
  }
}
