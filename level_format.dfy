/** The level-file decoding of s_load_level_from_file and the save snapshot
    of s_save_game / s_load_game, over in-memory sequences of values: a
    header of five integers (level, rows, cols, player row, player column)
    followed by one value per byte. */
module LevelFormat {
  import opened SokobanTypes
  import opened Rules

  /** Number of integers before the cell bytes. */
  const HeaderLength: nat := 5

  /** Split one level-file byte into its field code and its box code. */
  function DecodeCell(code: int): (r: (int, int))
    ensures r.0 == Empty || r.0 == Wall || r.0 == Point
    ensures r.1 == Empty || r.1 == Box
    ensures r.0 == Wall <==> code == Wall
    ensures r.0 == Point <==> code == Point || code == PointBox
    ensures r.1 == Box <==> code == Box || code == PointBox
  {
    if code == Wall || code == Point then (code, Empty)
    else if code == Box then (Empty, Box)
    else if code == PointBox then (Point, Box)
    else (Empty, Empty)
  }

  /** The byte a level-authoring tool writes for a field code and a box code. */
  function EncodeCell(field: int, box: int): int {
    if box == Box then (if field == Point then PointBox else Box) else field
  }

  /** Cell decoding and encoding are inverse on the codes 0-4 and on the
      (field, box) pairs a well-formed board holds. */
  lemma CellRoundTrip(code: int, field: int, box: int)
    requires 0 <= code <= PointBox
    requires field == Empty || field == Wall || field == Point
    requires box == Empty || box == Box
    requires !(field == Wall && box == Box)
    ensures EncodeCell(DecodeCell(code).0, DecodeCell(code).1) == code
    ensures DecodeCell(EncodeCell(field, box)) == (field, box)
  {
  }

  /** Byte i of the cell area; a byte past the end of the file reads as 0,
      as the zero-initialised buffer of a failed read does. */
  function CellByte(file: seq<int>, i: int): int {
    if 0 <= i && HeaderLength + i < |file| then file[HeaderLength + i] else Empty
  }

  /** The field codes of the first n cell bytes: a wall exactly where the
      byte is 1, a goal where it is 2 or 4, an empty cell otherwise. */
  function FieldLayer(file: seq<int>, n: nat): (r: seq<int>)
    ensures |r| == n
    ensures forall i :: 0 <= i < n ==> r[i] == Empty || r[i] == Wall || r[i] == Point
    ensures forall i :: 0 <= i < n ==> (r[i] == Wall <==> CellByte(file, i) == Wall)
    ensures forall i :: 0 <= i < n ==>
              (r[i] == Point <==> CellByte(file, i) == Point || CellByte(file, i) == PointBox)
  {
    seq(n, i => DecodeCell(CellByte(file, i)).0)
  }

  /** The box codes of the first n cell bytes: a box exactly where the byte
      is 3 or 4. */
  function BoxLayer(file: seq<int>, n: nat): (r: seq<int>)
    ensures |r| == n
    ensures forall i :: 0 <= i < n ==> r[i] == Empty || r[i] == Box
    ensures forall i :: 0 <= i < n ==> (r[i] == Box <==> CellByte(file, i) == Box || CellByte(file, i) == PointBox)
  {
    seq(n, i => DecodeCell(CellByte(file, i)).1)
  }

  /** Decoded layers are well-formed whatever the file holds: field codes in
      {0,1,2}, box codes in {0,3}, and no box on a wall. */
  lemma DecodedLayers(file: seq<int>, n: nat)
    ensures Layers(FieldLayer(file, n), BoxLayer(file, n))
  {
  }

  /** The board a level file describes, or why it cannot be played: the file
      is missing, shorter than its header, has a non-positive size, or puts
      the player off the grid, on a wall or on a box. */
  function DecodeLevel(contents: Option<seq<int>>): (r: Result<Board>)
    ensures contents.None? ==> r == Err(NotFound)
    ensures contents.Some? && |contents.value| < HeaderLength ==> r == Err(Truncated)
    ensures r.Ok? ==> WellFormedBoard(r.value)
    ensures r.Ok? ==>
              var file, b := contents.value, r.value;
              b.level == file[0] && b.rows == file[1] && b.cols == file[2] &&
              b.py == file[3] && b.px == file[4] &&
              forall i :: 0 <= i < |b.field| ==> (b.field[i], b.boxes[i]) == DecodeCell(CellByte(file, i))
    ensures contents.Some? && |contents.value| >= HeaderLength ==>
              var file := contents.value;
              var rows, cols, py, px := file[1], file[2], file[3], file[4];
              (r == Err(BadSize) <==> rows <= 0 || cols <= 0) &&
              (rows > 0 && cols > 0 ==>
                 (r == Err(BadStart) <==>
                    !(0 <= py < rows && 0 <= px < cols) ||
                    DecodeCell(CellByte(file, Idx(cols, py, px))).0 == Wall ||
                    DecodeCell(CellByte(file, Idx(cols, py, px))).1 == Box)) &&
              (r.Ok? <==> rows > 0 && cols > 0 && 0 <= py < rows && 0 <= px < cols &&
                          DecodeCell(CellByte(file, Idx(cols, py, px))).0 != Wall &&
                          DecodeCell(CellByte(file, Idx(cols, py, px))).1 != Box)
  {
    match contents
    case None => Err(NotFound)
    case Some(file) =>
      if |file| < HeaderLength then Err(Truncated)
      else
        var rows, cols := file[1], file[2];
        if rows <= 0 || cols <= 0 then Err(BadSize)
        else
          MulNonneg(rows, cols);
          var n := rows * cols;
          var b := Board(file[0], rows, cols, file[3], file[4], FieldLayer(file, n), BoxLayer(file, n));
          if InBounds(b, b.py, b.px) then
            IndexInRange(rows, cols, b.py, b.px);
            if FieldAt(b, b.py, b.px) == Wall || BoxAt(b, b.py, b.px) == Box then Err(BadStart) else Ok(b)
          else Err(BadStart)
  }

  /** The level file a level-authoring tool writes for a board. */
  function EncodeLevel(b: Board): seq<int>
    requires |b.field| == |b.boxes|
  {
    [b.level, b.rows, b.cols, b.py, b.px] + seq(|b.field|, i requires 0 <= i < |b.field| => EncodeCell(b.field[i], b.boxes[i]))
  }

  /** Decoding the file written for a playable board gives that board back. */
  lemma DecodeEncodeLevel(b: Board)
    requires WellFormedBoard(b)
    ensures DecodeLevel(Some(EncodeLevel(b))) == Ok(b)
  {
    var file := EncodeLevel(b);
    forall i | 0 <= i < |b.field|
      ensures DecodeCell(CellByte(file, i)) == (b.field[i], b.boxes[i])
    {
      assert CellByte(file, i) == EncodeCell(b.field[i], b.boxes[i]);
      CellRoundTrip(Empty, b.field[i], b.boxes[i]);
    }
    var n := b.rows * b.cols;
    assert FieldLayer(file, n) == b.field;
    assert BoxLayer(file, n) == b.boxes;
    assert Board(file[0], file[1], file[2], file[3], file[4], FieldLayer(file, n), BoxLayer(file, n)) == b;
  }

  // ---------------------------------------------------------------------
  // Save snapshot

  /** How many cells the save loops run over: rows * cols, or none when that
      product is not positive. */
  function Cells(rows: int, cols: int): nat {
    if rows * cols > 0 then rows * cols else 0
  }

  /** The snapshot s_save_game writes: the five header integers, the field
      layer, then the box layer. */
  function Serialise(b: Board): (r: seq<int>)
    ensures |r| == HeaderLength + |b.field| + |b.boxes|
  {
    [b.level, b.rows, b.cols, b.py, b.px] + b.field + b.boxes
  }

  /** The board s_load_game reads back, or Truncated when the data ends
      before the header or the two layers it announces. */
  function Deserialise(data: seq<int>): (r: Result<Board>)
    ensures r.Ok? || r == Err(Truncated)
  {
    if |data| < HeaderLength then Err(Truncated)
    else
      var n := Cells(data[1], data[2]);
      if |data| < HeaderLength + 2 * n then Err(Truncated)
      else Ok(Board(data[0], data[1], data[2], data[3], data[4],
                    data[HeaderLength..HeaderLength + n],
                    data[HeaderLength + n..HeaderLength + 2 * n]))
  }

  /** Loading a written snapshot restores level, size, player and both
      layers exactly: writer and reader use the same field order. */
  lemma DeserialiseSerialise(b: Board)
    requires |b.field| == Cells(b.rows, b.cols) && |b.boxes| == Cells(b.rows, b.cols)
    ensures Deserialise(Serialise(b)) == Ok(b)
  {
    var data := Serialise(b);
    var n := Cells(b.rows, b.cols);
    assert data[HeaderLength..HeaderLength + n] == b.field;
    assert data[HeaderLength + n..HeaderLength + 2 * n] == b.boxes;
  }

  /** Conversely, whatever loads is exactly what writing the loaded board
      produces, followed by any trailing data. */
  lemma SerialiseDeserialise(data: seq<int>)
    requires Deserialise(data).Ok?
    ensures var b := Deserialise(data).value;
            |b.field| == Cells(b.rows, b.cols) && |b.boxes| == Cells(b.rows, b.cols) &&
            Serialise(b) == data[..HeaderLength + 2 * Cells(b.rows, b.cols)]
  {
    var b := Deserialise(data).value;
    var n := Cells(b.rows, b.cols);
    assert data[..HeaderLength + 2 * n] ==
           data[..HeaderLength] + data[HeaderLength..HeaderLength + n] + data[HeaderLength + n..HeaderLength + 2 * n];
  }
}
