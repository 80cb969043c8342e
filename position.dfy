/**
 * Packed game positions of the asteroid field.
 *
 * The field is 8 columns (x, 0..7, left to right) by 16 rows (y, 0..15,
 * bottom to top). A position is one byte: x in the high nibble, y in the low
 * nibble. The C macros work on `uint8_t` and every stored position is
 * truncated to a byte; the shifts and masks are written as the equivalent
 * multiplication, division and remainder by 16 on the byte's value.
 */
module Position {

  /** A `uint8_t`. */
  type byte = b: int | 0 <= b < 256

  /** A value that may be absent: a null pointer, a byte not received, a frame not understood. */
  datatype Option<T> = None | Some(value: T)

  const FIELD_WIDTH: byte := 8
  const FIELD_HEIGHT: byte := 16

  /** The all-ones byte marks "no position"; its x nibble is 15. */
  const INVALID_POSITION: byte := 255

  /**
   * GAME_POSITION(x, y) stored in a uint8_t: x shifted into the high nibble
   * (its bits shifted past bit 7 are lost, leaving x mod 16), y masked into
   * the low one. The two parts share no bit, so the OR is a sum.
   */
  function GamePosition(x: int, y: int): (p: byte)
    requires 0 <= x && 0 <= y
    ensures GetX(p) == x % 16
    ensures GetY(p) == y % 16
  {
    (x % 16) * 16 + y % 16
  }

  /** GET_X_POSITION(p) */
  function GetX(p: byte): (x: byte)
    ensures x < 16
  {
    p / 16
  }

  /** GET_Y_POSITION(p) */
  function GetY(p: byte): (y: byte)
    ensures y < 16
  {
    p % 16
  }

  /** A position whose column lies on the 8-wide field. */
  predicate OnField(p: byte)
  {
    GetX(p) < FIELD_WIDTH
  }

  /** Decoding and re-encoding gives back every byte. */
  lemma DecodeEncode(p: byte)
    ensures GamePosition(GetX(p), GetY(p)) == p
  {
  }

  /** Two positions are the same byte exactly when both nibbles agree. */
  lemma SameCellIff(p: byte, q: byte)
    ensures (GetX(p) == GetX(q) && GetY(p) == GetY(q)) <==> p == q
  {
    DecodeEncode(p);
    DecodeEncode(q);
  }

  /** Encoding is injective on the 16 x 16 nibble grid. */
  lemma EncodeInjective(x: int, y: int, x': int, y': int)
    requires 0 <= x < 16 && 0 <= y < 16 && 0 <= x' < 16 && 0 <= y' < 16
    requires GamePosition(x, y) == GamePosition(x', y')
    ensures x == x' && y == y'
  {
  }

  /** The sentinel decodes to column 15, so no on-field position equals it. */
  lemma InvalidIsOffField(x: int, y: int)
    requires 0 <= x < FIELD_WIDTH && 0 <= y
    ensures GetX(INVALID_POSITION) == 15
    ensures GamePosition(x, y) != INVALID_POSITION
  {
  }

  /** The cells where initialise_game places asteroids: above the lowest three rows. */
  predicate InStartArea(p: byte)
  {
    GetX(p) < FIELD_WIDTH && 3 <= GetY(p)
  }

  // ---------------------------------------------------------------------
  // A free start cell always exists: the start area has 104 cells.

  /** The 104 cells of the start area (x in 0..7, y in 3..15), column by column. */
  function StartCells(): (cells: seq<byte>)
    ensures |cells| == 104
  {
    seq(104, k requires 0 <= k < 104 => GamePosition(k / 13, 3 + k % 13))
  }

  predicate Distinct<T(==)>(s: seq<T>)
  {
    forall i, j :: 0 <= i < j < |s| ==> s[i] != s[j]
  }

  lemma StartCellsDistinct()
    ensures Distinct(StartCells())
  {
    var cells := StartCells();
    forall i, j | 0 <= i < j < 104
      ensures cells[i] != cells[j]
    {
      if cells[i] == cells[j] {
        EncodeInjective(i / 13, 3 + i % 13, j / 13, 3 + j % 13);
      }
    }
  }

  lemma DistinctSnoc<T>(s: seq<T>, c: T)
    requires Distinct(s) && c !in s
    ensures Distinct(s + [c])
  {
  }

  function Elems<T>(s: seq<T>): set<T>
  {
    set x | x in s
  }

  lemma {:induction false} ElemsBound<T>(s: seq<T>)
    ensures |Elems(s)| <= |s|
  {
    if s != [] {
      ElemsBound(s[1..]);
      assert Elems(s) == {s[0]} + Elems(s[1..]);
    }
  }

  lemma {:induction false} ElemsOfDistinct<T>(s: seq<T>)
    requires Distinct(s)
    ensures |Elems(s)| == |s|
  {
    if s != [] {
      ElemsOfDistinct(s[1..]);
      assert Elems(s) == {s[0]} + Elems(s[1..]);
      assert s[0] !in Elems(s[1..]);
    }
  }

  /** Pigeonhole: a list of fewer than |cells| distinct cells misses one of them. */
  lemma MissedCell<T>(cells: seq<T>, taken: seq<T>) returns (k: nat)
    requires Distinct(cells) && |taken| < |cells|
    ensures k < |cells| && cells[k] !in taken
  {
    ElemsOfDistinct(cells);
    ElemsBound(taken);
    var a, b := Elems(cells), Elems(taken);
    assert |a + b| + |a * b| == |a| + |b|;
    assert |a + b| == |a - b| + |b - a| + |a * b|;
    assert |a - b| > 0;
    var c :| c in a - b;
    var i :| 0 <= i < |cells| && cells[i] == c;
    k := i;
  }

  /** With fewer than 104 cells taken there is a free cell in the start area. */
  lemma FreeStartCellExists(taken: seq<byte>) returns (x: int, y: int)
    requires |taken| < 104
    ensures 0 <= x < 8 && 3 <= y < 16 && GamePosition(x, y) !in taken
  {
    StartCellsDistinct();
    var k := MissedCell(StartCells(), taken);
    x, y := k / 13, 3 + k % 13;
    assert GamePosition(x, y) == StartCells()[k];
  }
}
