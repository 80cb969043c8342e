/**
 * Scrolling text on the LED matrix: each call of scroll_display shifts the
 * display one column left and writes one new column of a message into
 * display column 15.
 *
 * The font gives each letter and digit 3 to 5 columns of one byte each.
 * Bits 7..1 are display rows 7..1; bit 0 is set only in a character's last
 * column, which is how the scroller knows where the character ends.
 *
 * The C pointers become values: the string still to be read is the suffix
 * of the message after the pointer (the terminating NUL is implicit at its
 * end), and the font pointer becomes the suffix of the character's columns
 * not yet shown, empty for the null pointer.
 */
module Scrolling {
  import opened Position
  import opened LedMatrix

  // ---------------------------------------------------------------------
  // Font

  /** A font character: its last column alone has bit 0 set. */
  predicate EndMarked(cols: seq<byte>)
  {
    |cols| > 0 && cols[|cols| - 1] % 2 == 1 &&
    forall i :: 0 <= i < |cols| - 1 ==> cols[i] % 2 == 0
  }

  /** The columns of letter `i` (0 for A, 25 for Z). */
  function Letter(i: int): (cols: seq<byte>)
    requires 0 <= i < 26
    ensures 3 <= |cols| <= 5
  {
    match i
    case 0 => [126, 144, 144, 127]
    case 1 => [254, 146, 146, 109]
    case 2 => [124, 130, 130, 69]
    case 3 => [254, 130, 130, 125]
    case 4 => [254, 146, 146, 131]
    case 5 => [254, 144, 144, 129]
    case 6 => [124, 130, 146, 93]
    case 7 => [254, 16, 16, 255]
    case 8 => [130, 254, 131]
    case 9 => [4, 2, 2, 253]
    case 10 => [254, 16, 40, 199]
    case 11 => [254, 2, 2, 3]
    case 12 => [254, 64, 48, 64, 255]
    case 13 => [254, 32, 16, 255]
    case 14 => [124, 130, 130, 125]
    case 15 => [254, 144, 144, 97]
    case 16 => [124, 130, 138, 124, 3]
    case 17 => [254, 144, 152, 103]
    case 18 => [100, 146, 146, 77]
    case 19 => [128, 128, 254, 128, 129]
    case 20 => [252, 2, 2, 253]
    case 21 => [248, 4, 2, 4, 249]
    case 22 => [252, 2, 28, 2, 253]
    case 23 => [198, 40, 16, 40, 199]
    case 24 => [224, 16, 14, 16, 225]
    case _ => [134, 138, 146, 162, 195]
  }

  /** The columns of digit `i`. */
  function Number(i: int): (cols: seq<byte>)
    requires 0 <= i < 10
    ensures 3 <= |cols| <= 4
  {
    match i
    case 0 => [124, 146, 162, 125]
    case 1 => [66, 254, 3]
    case 2 => [70, 138, 146, 99]
    case 3 => [68, 146, 146, 109]
    case 4 => [24, 40, 72, 255]
    case 5 => [228, 162, 162, 157]
    case 6 => [124, 146, 146, 77]
    case 7 => [128, 158, 160, 193]
    case 8 => [108, 146, 146, 109]
    case _ => [100, 146, 146, 125]
  }

  /** In every letter only the last column has bit 0 set. */
  lemma LettersEndMarked(i: int)
    requires 0 <= i < 26
    ensures EndMarked(Letter(i))
  {
  }

  /** In every digit only the last column has bit 0 set. */
  lemma NumbersEndMarked(i: int)
    requires 0 <= i < 10
    ensures EndMarked(Number(i))
  {
  }

  /** The columns a character selects: none for anything but a letter or digit. */
  function FontFor(c: char): (cols: seq<byte>)
    ensures cols == [] || EndMarked(cols)
  {
    if 'a' <= c <= 'z' then LettersEndMarked(c as int - 'a' as int); Letter(c as int - 'a' as int)
    else if 'A' <= c <= 'Z' then LettersEndMarked(c as int - 'A' as int); Letter(c as int - 'A' as int)
    else if '0' <= c <= '9' then NumbersEndMarked(c as int - '0' as int); Number(c as int - '0' as int)
    else []
  }

  /**
   * Both cases of a letter show the same columns, a digit shows its own,
   * and every other character shows no columns at all.
   */
  lemma FontSelection(c: char)
    ensures 'a' <= c <= 'z' ==> FontFor(c) == FontFor((c as int - 32) as char) == Letter(c as int - 'a' as int)
    ensures '0' <= c <= '9' ==> FontFor(c) == Number(c as int - '0' as int)
    ensures FontFor(c) != [] <==> ('a' <= c <= 'z' || 'A' <= c <= 'Z' || '0' <= c <= '9')
  {
  }

  // ---------------------------------------------------------------------
  // The column written to the display

  /** Bit i of byte b. */
  predicate Bit(b: bv8, i: nat)
    requires i < 8
  {
    (b >> i) & 1 == 1
  }

  /** The display column for font byte b: row i (7..1) lit in `colour` iff bit i is set, row 0 blank. */
  function ColumnColours(b: bv8, colour: byte): (col: seq<byte>)
    ensures |col| == MATRIX_NUM_ROWS && col[0] == 0
    ensures forall i :: 1 <= i < 8 ==> col[i] == (if Bit(b, i) then colour else 0)
  {
    seq(8, i requires 0 <= i < 8 => if i != 0 && Bit(b, i) then colour else 0)
  }

  /** The loop of scroll_display that fills the column, from row 7 down to row 1. */
  method FillColumn(colData: bv8, colour: byte) returns (column: array<byte>)
    ensures fresh(column) && column.Length == 8
    ensures column[..] == ColumnColours(colData, colour)
  {
    column := new byte[8];
    var data := colData;
    var i := 7;
    while i >= 1
      invariant 0 <= i <= 7
      invariant data == colData << (7 - i)
      invariant forall j :: i < j < 8 ==> column[j] == (if Bit(colData, j) then colour else 0)
    {
      if data & 0x80 != 0 {
        column[i] := colour;
      } else {
        column[i] := 0;
      }
      data := data << 1;
      i := i - 1;
    }
    column[0] := 0;
    assert column[..] == ColumnColours(colData, colour);
  }

  // ---------------------------------------------------------------------
  // The scroller state machine

  /**
   * The static state: the string waiting to be shown (display_string), the
   * rest of the string being shown (next_char_to_display), the rest of the
   * current character's columns (next_col_ptr) and shift_countdown.
   */
  datatype ScrollState = ScrollState(
    displayString: Option<seq<char>>,
    nextChars: Option<seq<char>>,
    nextCols: seq<byte>,
    countdown: byte)

  /** The font pointer is null or points into a character's columns. */
  predicate Inv(s: ScrollState)
  {
    s.nextCols == [] || EndMarked(s.nextCols)
  }

  /** No column pending, no string pending or being shown. */
  predicate Idle(s: ScrollState)
  {
    s.nextCols == [] && s.nextChars.None? && s.displayString.None?
  }

  /**
   * The string pointer has reached the terminating NUL. A string that runs
   * out without one (the sequence ends) is read as ending there too; text
   * after an embedded NUL is never shown.
   */
  predicate AtEnd(chars: seq<char>)
  {
    chars == [] || chars[0] == '\0'
  }

  /** What the first part of scroll_display decides: the new pointers, the font byte and the "finished" flag. */
  datatype Fetched = Fetched(state: ScrollState, column: byte, finished: bool)

  /** The branch on next_col_ptr, next_char_to_display and display_string. */
  function Fetch(s: ScrollState): (r: Fetched)
    requires Inv(s)
    ensures Inv(r.state)
    ensures r.finished <==> Idle(s)
    ensures r.column != 0 ==> s.nextCols != []
  {
    if s.nextCols != [] then
      Fetched(s.(nextCols := if s.nextCols[0] % 2 == 1 then [] else s.nextCols[1..]), s.nextCols[0], false)
    else if s.nextChars.Some? then
      var rest := s.nextChars.value;
      if AtEnd(rest) then Fetched(s.(nextChars := None, countdown := 16), 0, false)
      else Fetched(s.(nextChars := Some(rest[1..]), nextCols := FontFor(rest[0])), 0, false)
    else
      Fetched(s.(nextChars := s.displayString, displayString := None), 0, s.displayString.None?)
  }

  datatype StepResult = StepResult(next: ScrollState, column: byte, scrolling: bool)

  /** One call of scroll_display: the new state, the font byte shown and the result. */
  function Step(s: ScrollState): (r: StepResult)
    requires Inv(s)
    ensures Inv(r.next)
    ensures !r.scrolling <==> Idle(s) && s.countdown <= 1
    ensures r.next.countdown == if s.nextCols == [] && s.nextChars.Some? && AtEnd(s.nextChars.value) then 15
                                else if s.countdown > 0 then s.countdown - 1 else 0
  {
    var f := Fetch(s);
    var c := if f.state.countdown > 0 then f.state.countdown - 1 else 0;
    StepResult(f.state.(countdown := c), f.column, !(f.finished && c == 0))
  }

  /** n calls of scroll_display: the final state, the font bytes shown and the results. */
  function Run(s: ScrollState, n: nat): (r: (ScrollState, seq<byte>, seq<bool>))
    requires Inv(s)
    ensures Inv(r.0) && |r.1| == n && |r.2| == n
    decreases n
  {
    if n == 0 then (s, [], [])
    else
      var st := Step(s);
      var rest := Run(st.next, n - 1);
      (rest.0, [st.column] + rest.1, [st.scrolling] + rest.2)
  }

  /** The columns of the current character come out one per call, and then the pointer is null. */
  lemma {:induction false} FontColumnsFollow(s: ScrollState)
    requires Inv(s) && s.nextCols != []
    ensures var r := Run(s, |s.nextCols|);
            r.1 == s.nextCols && r.0.nextCols == [] &&
            r.0.nextChars == s.nextChars && r.0.displayString == s.displayString &&
            forall k :: 0 <= k < |r.2| ==> r.2[k]
    decreases |s.nextCols|
  {
    var n := |s.nextCols|;
    var st := Step(s);
    StepOnColumn(s);
    var rest := Run(st.next, n - 1);
    assert Run(s, n) == (rest.0, [st.column] + rest.1, [st.scrolling] + rest.2);
    if n > 1 {
      FontColumnsFollow(st.next);
      assert [s.nextCols[0]] + s.nextCols[1..] == s.nextCols;
    }
  }

  /** A call with a font column pending shows that column and moves the font pointer on. */
  lemma StepOnColumn(s: ScrollState)
    requires Inv(s) && s.nextCols != []
    ensures var st := Step(s);
            st.column == s.nextCols[0] && st.scrolling &&
            st.next.nextCols == (if |s.nextCols| == 1 then [] else s.nextCols[1..]) &&
            st.next.nextChars == s.nextChars && st.next.displayString == s.displayString
  {
    if s.nextCols[0] % 2 == 1 {
      assert |s.nextCols| == 1;
    }
  }

  /**
   * A character is shown as one blank column followed by its font columns;
   * afterwards the string pointer has moved past it.
   */
  lemma CharacterShown(s: ScrollState, c: char, rest: seq<char>)
    requires Inv(s) && s.nextCols == [] && s.nextChars == Some([c] + rest) && c != '\0'
    ensures var r := Run(s, 1 + |FontFor(c)|);
            r.1 == [0] + FontFor(c) && r.0.nextCols == [] && r.0.nextChars == Some(rest) &&
            forall k :: 0 <= k < |r.2| ==> r.2[k]
  {
    var st := Step(s);
    assert ([c] + rest)[1..] == rest;
    if FontFor(c) != [] {
      FontColumnsFollow(st.next);
    }
  }

  /** Once the string is exhausted and nothing else is pending, the countdown runs out call by call. */
  lemma {:induction false} CountdownDrains(s: ScrollState)
    requires Idle(s) && s.countdown >= 1
    ensures var r := Run(s, s.countdown);
            r.0 == s.(countdown := 0) &&
            (forall k :: 0 <= k < |r.1| ==> r.1[k] == 0) &&
            (forall k :: 0 <= k < s.countdown - 1 ==> r.2[k]) && !r.2[s.countdown - 1]
    decreases s.countdown
  {
    var st := Step(s);
    if s.countdown > 1 {
      CountdownDrains(st.next);
    }
  }

  /**
   * Reading the terminating NUL (or any NUL) starts a countdown of 16 shifts: 16 blank
   * columns push the message off the 16-column display, and only the last
   * of those calls reports that scrolling has finished.
   */
  lemma MessageScrollsOff(s: ScrollState)
    requires s.nextCols == [] && s.nextChars.Some? && AtEnd(s.nextChars.value) && s.displayString.None?
    ensures var r := Run(s, 16);
            Idle(r.0) && r.0.countdown == 0 &&
            (forall k :: 0 <= k < 16 ==> r.1[k] == 0) &&
            (forall k :: 0 <= k < 15 ==> r.2[k]) && !r.2[15]
  {
    var st := Step(s);
    CountdownDrains(st.next);
  }

  class ScrollingDisplay {
    /** `colour` */
    var colour: byte
    /** `display_string`, None for the null pointer */
    var displayString: Option<seq<char>>
    /** `next_char_to_display` as the rest of the string, None for the null pointer */
    var nextChars: Option<seq<char>>
    /** `next_col_ptr` as the rest of the character's columns, [] for the null pointer */
    var nextCols: seq<byte>
    /** the static `shift_countdown` of scroll_display */
    var shiftCountdown: byte
    /** the link to the LED matrix */
    const spi: Spi

    function State(): ScrollState
      reads this
    {
      ScrollState(displayString, nextChars, nextCols, shiftCountdown)
    }

    ghost predicate Valid()
      reads this
    {
      Inv(State())
    }

    /** The statics as the program starts: red, nothing to show. */
    constructor (link: Spi)
      ensures Valid() && Idle(State()) && shiftCountdown == 0
      ensures colour == COLOUR_RED && spi == link
    {
      colour := COLOUR_RED;
      displayString := None;
      nextChars := None;
      nextCols := [];
      shiftCountdown := 0;
      spi := link;
    }

    /** set_scrolling_display_text: the next character shown is the first of `text`. */
    method SetText(text: Option<seq<char>>, c: byte)
      modifies this
      ensures Valid()
      ensures colour == c && displayString == text
      ensures nextCols == [] && nextChars.None? && shiftCountdown == old(shiftCountdown)
    {
      colour := c;
      displayString := text;
      nextCols := [];
      nextChars := None;
    }

    /** The first part of scroll_display: pick the font byte for the new column. */
    method FetchColumn() returns (colData: byte, finished: bool)
      requires Valid()
      modifies this
      ensures colour == old(colour)
      ensures Fetch(old(State())) == Fetched(State(), colData, finished)
    {
      colData := 0;
      finished := false;
      if nextCols != [] {
        colData := nextCols[0];
        if colData % 2 == 1 {
          nextCols := [];
        } else {
          nextCols := nextCols[1..];
        }
      } else if nextChars.Some? {
        var rest := nextChars.value;
        if rest == [] || rest[0] == '\0' {
          nextChars := None;
          shiftCountdown := 16;
        } else {
          nextChars := Some(rest[1..]);
          nextCols := FontFor(rest[0]);
        }
      } else {
        if displayString.None? {
          finished := true;
        }
        nextChars := displayString;
        displayString := None;
      }
    }

    /** The second part: shift the display left and write the new column 15. */
    method ShowColumn(colData: byte)
      modifies spi
      ensures spi.sent == old(spi.sent) + Encode(Shift(Left)) +
                          Encode(UpdateColumn(15, ColumnColours(colData as bv8, colour)))
    {
      spi.ShiftDisplay(Left);
      var column := FillColumn(colData as bv8, colour);
      spi.UpdateColumnAt(15, column);
    }

    /** scroll_display */
    method Scroll() returns (scrolling: bool)
      requires Valid()
      modifies this, spi
      ensures Valid() && colour == old(colour)
      ensures State() == Step(old(State())).next
      ensures scrolling == Step(old(State())).scrolling
      ensures spi.sent == old(spi.sent) + Encode(Shift(Left)) +
                          Encode(UpdateColumn(15, ColumnColours(Step(old(State())).column as bv8, colour)))
    {
      ghost var before := State();
      var colData, finished := FetchColumn();
      assert Step(before).column == colData;
      ShowColumn(colData);
      if shiftCountdown > 0 {
        shiftCountdown := shiftCountdown - 1;
      }
      finished := finished && shiftCountdown == 0;
      scrolling := !finished;
    }
  }
}
