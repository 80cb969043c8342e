/**
 * The LED matrix driver: every display update is a command frame of bytes
 * sent over SPI to the matrix board. The SPI link is the class `Spi`,
 * whose field `sent` is everything transmitted so far; spi_send_byte
 * appends one byte to it.
 *
 * The matrix has 16 columns (x, 0..15) and 8 rows (y, 0..7). A pixel
 * colour is one byte (green in the high nibble, red in the low one).
 */
module LedMatrix {
  import opened Position

  const MATRIX_NUM_COLUMNS: int := 16
  const MATRIX_NUM_ROWS: int := 8

  const CMD_UPDATE_ALL: byte := 0x00
  const CMD_UPDATE_PIXEL: byte := 0x01
  const CMD_UPDATE_ROW: byte := 0x02
  const CMD_UPDATE_COL: byte := 0x03
  const CMD_SHIFT_DISPLAY: byte := 0x04
  const CMD_CLEAR_SCREEN: byte := 0x0F

  const COLOUR_BLACK: byte := 0x00
  const COLOUR_RED: byte := 0x0F
  const COLOUR_GREEN: byte := 0xF0
  const COLOUR_ORANGE: byte := 0x3C

  datatype Direction = Left | Right | Up | Down

  /** The argument byte of CMD_SHIFT_DISPLAY for each direction. */
  function ShiftCode(d: Direction): byte
  {
    match d
    case Left => 0x02
    case Right => 0x01
    case Up => 0x08
    case Down => 0x04
  }

  /** One command to the matrix board, as the board reads it. */
  datatype Command =
    | UpdateAll(colours: seq<byte>)
    | UpdatePixel(x: int, y: int, colour: byte)
    | UpdateRow(row: int, colours: seq<byte>)
    | UpdateColumn(column: int, colours: seq<byte>)
    | Shift(direction: Direction)
    | Clear

  /**
   * The commands the driver can produce: all 128 colours row by row, a
   * pixel or a row or column on the board, with one colour per cell.
   */
  predicate WellFormed(c: Command)
  {
    match c
    case UpdateAll(colours) => |colours| == MATRIX_NUM_COLUMNS * MATRIX_NUM_ROWS
    case UpdatePixel(x, y, _) => 0 <= x < MATRIX_NUM_COLUMNS && 0 <= y < MATRIX_NUM_ROWS
    case UpdateRow(y, colours) => 0 <= y < MATRIX_NUM_ROWS && |colours| == MATRIX_NUM_COLUMNS
    case UpdateColumn(x, colours) => 0 <= x < MATRIX_NUM_COLUMNS && |colours| == MATRIX_NUM_ROWS
    case Shift(_) => true
    case Clear => true
  }

  /** The bytes of a command frame. */
  function Encode(c: Command): (bytes: seq<byte>)
    requires WellFormed(c)
    ensures |bytes| >= 1
  {
    match c
    case UpdateAll(colours) => [CMD_UPDATE_ALL] + colours
    case UpdatePixel(x, y, colour) =>
      // ((y & 0x07) << 4) | (x & 0x0F): the two nibbles do not overlap
      [CMD_UPDATE_PIXEL, (y % 8) * 16 + x % 16, colour]
    case UpdateRow(y, colours) => [CMD_UPDATE_ROW, y % 8] + colours
    case UpdateColumn(x, colours) => [CMD_UPDATE_COL, x % 16] + colours
    case Shift(d) => [CMD_SHIFT_DISPLAY, ShiftCode(d)]
    case Clear => [CMD_CLEAR_SCREEN]
  }

  /** The length of a frame, fixed by its command byte (0 for an unknown one). */
  function FrameLength(op: byte): nat
  {
    if op == CMD_UPDATE_ALL then 129
    else if op == CMD_UPDATE_PIXEL then 3
    else if op == CMD_UPDATE_ROW then 18
    else if op == CMD_UPDATE_COL then 10
    else if op == CMD_SHIFT_DISPLAY then 2
    else if op == CMD_CLEAR_SCREEN then 1
    else 0
  }

  function DirectionOf(b: byte): Option<Direction>
  {
    if b == 0x02 then Some(Left)
    else if b == 0x01 then Some(Right)
    else if b == 0x08 then Some(Up)
    else if b == 0x04 then Some(Down)
    else None
  }

  /** How the board reads one frame. */
  function Decode(bytes: seq<byte>): (r: Option<Command>)
    ensures r.Some? ==> |bytes| >= 1 && WellFormed(r.value) && |bytes| == FrameLength(bytes[0])
    ensures r.Some? ==> |Encode(r.value)| == |bytes| && Encode(r.value)[0] == bytes[0]
  {
    if |bytes| == 0 || |bytes| != FrameLength(bytes[0]) then None
    else if bytes[0] == CMD_UPDATE_ALL then Some(UpdateAll(bytes[1..]))
    else if bytes[0] == CMD_UPDATE_PIXEL then Some(UpdatePixel(bytes[1] % 16, bytes[1] / 16 % 8, bytes[2]))
    else if bytes[0] == CMD_UPDATE_ROW then Some(UpdateRow(bytes[1] % 8, bytes[2..]))
    else if bytes[0] == CMD_UPDATE_COL then Some(UpdateColumn(bytes[1] % 16, bytes[2..]))
    else if bytes[0] == CMD_SHIFT_DISPLAY then
      (match DirectionOf(bytes[1]) case Some(d) => Some(Shift(d)) case None => None)
    else Some(Clear)
  }

  /** The packed pixel address gives back its column and row. */
  lemma PixelAddress(x: int, y: int)
    requires 0 <= x < 16 && 0 <= y < 8
    ensures var b := (y % 8) * 16 + x % 16; b % 16 == x && b / 16 % 8 == y
  {
  }

  /** Every frame the driver sends reads back as the command it encodes. */
  lemma DecodeEncode(c: Command)
    requires WellFormed(c)
    ensures Decode(Encode(c)) == Some(c)
    ensures |Encode(c)| == FrameLength(Encode(c)[0])
  {
    match c
    case UpdatePixel(x, y, colour) =>
      PixelAddress(x, y);
    case UpdateAll(colours) =>
      assert Encode(c)[1..] == colours;
    case UpdateRow(y, colours) =>
      assert Encode(c)[2..] == colours;
    case UpdateColumn(x, colours) =>
      assert Encode(c)[2..] == colours;
    case Shift(d) =>
    case Clear =>
  }

  /**
   * Frames are self-delimiting: a stream of two frames splits after the
   * length the first command byte announces, so the board reads both back.
   */
  lemma TwoFramesSplit(c1: Command, c2: Command)
    requires WellFormed(c1) && WellFormed(c2)
    ensures var s := Encode(c1) + Encode(c2);
            var n := FrameLength(s[0]);
            n <= |s| && Decode(s[..n]) == Some(c1) && Decode(s[n..]) == Some(c2)
  {
    DecodeEncode(c1);
    DecodeEncode(c2);
    var s := Encode(c1) + Encode(c2);
    assert s[..|Encode(c1)|] == Encode(c1);
    assert s[|Encode(c1)|..] == Encode(c2);
  }

  // ---------------------------------------------------------------------
  // The matrix contents

  /** The colours of a 16 x 8 matrix `data[x][y]`, rows (y) outer and columns (x) inner, first n of them. */
  function RowMajor(data: array2<byte>, n: int): (s: seq<byte>)
    requires data.Length0 == MATRIX_NUM_COLUMNS && data.Length1 == MATRIX_NUM_ROWS
    requires 0 <= n <= MATRIX_NUM_COLUMNS * MATRIX_NUM_ROWS
    reads data
    ensures |s| == n
    ensures forall i :: 0 <= i < n ==> s[i] == data[i % 16, i / 16]
  {
    seq(n, i requires 0 <= i < n reads data => data[i % 16, i / 16])
  }

  lemma RowMajorNext(data: array2<byte>, y: int, x: int)
    requires data.Length0 == MATRIX_NUM_COLUMNS && data.Length1 == MATRIX_NUM_ROWS
    requires 0 <= y < MATRIX_NUM_ROWS && 0 <= x < MATRIX_NUM_COLUMNS
    ensures RowMajor(data, 16 * y + x + 1) == RowMajor(data, 16 * y + x) + [data[x, y]]
  {
    var n := 16 * y + x;
    assert n % 16 == x && n / 16 == y;
  }

  class Spi {
    /** Every byte sent to the matrix board so far. */
    var sent: seq<byte>

    constructor ()
      ensures sent == []
    {
      sent := [];
    }

    /** spi_send_byte; the byte it returns is ignored by every caller. */
    method SendByte(b: byte)
      modifies this
      ensures sent == old(sent) + [b]
    {
      sent := sent + [b];
    }

    /** ledmatrix_update_all: the whole matrix, row by row. */
    method UpdateAllPixels(data: array2<byte>)
      requires data.Length0 == MATRIX_NUM_COLUMNS && data.Length1 == MATRIX_NUM_ROWS
      modifies this
      ensures sent == old(sent) + Encode(UpdateAll(RowMajor(data, 128)))
      ensures forall x, y :: 0 <= x < MATRIX_NUM_COLUMNS && 0 <= y < MATRIX_NUM_ROWS ==>
        sent[|old(sent)| + 1 + 16 * y + x] == data[x, y]
    {
      SendByte(CMD_UPDATE_ALL);
      var y := 0;
      while y < MATRIX_NUM_ROWS
        invariant 0 <= y <= MATRIX_NUM_ROWS
        invariant sent == old(sent) + [CMD_UPDATE_ALL] + RowMajor(data, 16 * y)
      {
        var x := 0;
        while x < MATRIX_NUM_COLUMNS
          invariant 0 <= x <= MATRIX_NUM_COLUMNS
          invariant sent == old(sent) + [CMD_UPDATE_ALL] + RowMajor(data, 16 * y + x)
        {
          RowMajorNext(data, y, x);
          SendByte(data[x, y]);
          x := x + 1;
        }
        y := y + 1;
      }
      forall x, y | 0 <= x < MATRIX_NUM_COLUMNS && 0 <= y < MATRIX_NUM_ROWS
        ensures sent[|old(sent)| + 1 + 16 * y + x] == data[x, y]
      {
        var i := 16 * y + x;
        assert i % 16 == x && i / 16 == y;
      }
    }

    /** ledmatrix_update_pixel: ignored off the board. */
    method UpdatePixelAt(x: byte, y: byte, pixel: byte)
      modifies this
      ensures x >= MATRIX_NUM_COLUMNS || y >= MATRIX_NUM_ROWS ==> sent == old(sent)
      ensures x < MATRIX_NUM_COLUMNS && y < MATRIX_NUM_ROWS ==>
        sent == old(sent) + Encode(UpdatePixel(x, y, pixel))
    {
      if x >= MATRIX_NUM_COLUMNS || y >= MATRIX_NUM_ROWS {
        return;
      }
      SendByte(CMD_UPDATE_PIXEL);
      SendByte((y % 8) * 16 + x % 16);
      SendByte(pixel);
    }

    /** ledmatrix_update_row: ignored for y past the top row. */
    method UpdateRowAt(y: byte, row: array<byte>)
      requires row.Length == MATRIX_NUM_COLUMNS
      modifies this
      ensures y >= MATRIX_NUM_ROWS ==> sent == old(sent)
      ensures y < MATRIX_NUM_ROWS ==> sent == old(sent) + Encode(UpdateRow(y, row[..]))
    {
      if y >= MATRIX_NUM_ROWS {
        return;
      }
      SendByte(CMD_UPDATE_ROW);
      SendByte(y % 8);
      var x := 0;
      while x < MATRIX_NUM_COLUMNS
        invariant 0 <= x <= MATRIX_NUM_COLUMNS
        invariant sent == old(sent) + [CMD_UPDATE_ROW, y % 8] + row[..x]
      {
        assert row[..x + 1] == row[..x] + [row[x]];
        SendByte(row[x]);
        x := x + 1;
      }
      assert row[..MATRIX_NUM_COLUMNS] == row[..];
    }

    /** ledmatrix_update_column: ignored for x past the last column. */
    method UpdateColumnAt(x: byte, col: array<byte>)
      requires col.Length == MATRIX_NUM_ROWS
      modifies this
      ensures x >= MATRIX_NUM_COLUMNS ==> sent == old(sent)
      ensures x < MATRIX_NUM_COLUMNS ==> sent == old(sent) + Encode(UpdateColumn(x, col[..]))
    {
      if x >= MATRIX_NUM_COLUMNS {
        return;
      }
      SendByte(CMD_UPDATE_COL);
      SendByte(x % 16);
      var y := 0;
      while y < MATRIX_NUM_ROWS
        invariant 0 <= y <= MATRIX_NUM_ROWS
        invariant sent == old(sent) + [CMD_UPDATE_COL, x % 16] + col[..y]
      {
        assert col[..y + 1] == col[..y] + [col[y]];
        SendByte(col[y]);
        y := y + 1;
      }
      assert col[..MATRIX_NUM_ROWS] == col[..];
    }

    /** ledmatrix_shift_display_left, _right, _up and _down. */
    method ShiftDisplay(d: Direction)
      modifies this
      ensures sent == old(sent) + Encode(Shift(d))
    {
      SendByte(CMD_SHIFT_DISPLAY);
      match d
      case Left => SendByte(0x02);
      case Right => SendByte(0x01);
      case Up => SendByte(0x08);
      case Down => SendByte(0x04);
    }

    /** ledmatrix_clear */
    method ClearScreen()
      modifies this
      ensures sent == old(sent) + Encode(Clear)
    {
      SendByte(CMD_CLEAR_SCREEN);
    }
  }

  // ---------------------------------------------------------------------
  // Row and column buffers

  /** copy_matrix_column: `to` becomes a copy of `from` (the two may be the same buffer). */
  method CopyMatrixColumn(from: array<byte>, to: array<byte>)
    requires from.Length == MATRIX_NUM_ROWS && to.Length == MATRIX_NUM_ROWS
    modifies to
    ensures to[..] == old(from[..])
  {
    var row := 0;
    while row < MATRIX_NUM_ROWS
      invariant 0 <= row <= MATRIX_NUM_ROWS
      invariant forall i :: 0 <= i < row ==> to[i] == old(from[i])
      invariant forall i :: row <= i < MATRIX_NUM_ROWS ==> from[i] == old(from[i])
    {
      to[row] := from[row];
      row := row + 1;
    }
  }

  /** copy_matrix_row: `to` becomes a copy of `from` (the two may be the same buffer). */
  method CopyMatrixRow(from: array<byte>, to: array<byte>)
    requires from.Length == MATRIX_NUM_COLUMNS && to.Length == MATRIX_NUM_COLUMNS
    modifies to
    ensures to[..] == old(from[..])
  {
    var col := 0;
    while col < MATRIX_NUM_COLUMNS
      invariant 0 <= col <= MATRIX_NUM_COLUMNS
      invariant forall i :: 0 <= i < col ==> to[i] == old(from[i])
      invariant forall i :: col <= i < MATRIX_NUM_COLUMNS ==> from[i] == old(from[i])
    {
      to[col] := from[col];
      col := col + 1;
    }
  }

  /** set_matrix_column_to_colour */
  method SetMatrixColumnToColour(column: array<byte>, colour: byte)
    requires column.Length == MATRIX_NUM_ROWS
    modifies column
    ensures forall i :: 0 <= i < MATRIX_NUM_ROWS ==> column[i] == colour
  {
    var row := 0;
    while row < MATRIX_NUM_ROWS
      invariant 0 <= row <= MATRIX_NUM_ROWS
      invariant forall i :: 0 <= i < row ==> column[i] == colour
    {
      column[row] := colour;
      row := row + 1;
    }
  }

  /** set_matrix_row_to_colour */
  method SetMatrixRowToColour(row: array<byte>, colour: byte)
    requires row.Length == MATRIX_NUM_COLUMNS
    modifies row
    ensures forall i :: 0 <= i < MATRIX_NUM_COLUMNS ==> row[i] == colour
  {
    var column := 0;
    while column < MATRIX_NUM_COLUMNS
      invariant 0 <= column <= MATRIX_NUM_COLUMNS
      invariant forall i :: 0 <= i < column ==> row[i] == colour
    {
      row[column] := colour;
      column := column + 1;
    }
  }
}
