/**
 * The millisecond tick, the seven-segment score display it multiplexes, the
 * life LEDs on PORTC and the game-over flag `xk`.
 *
 * The timer interrupt is modelled by the ordinary method `Tick`, one atomic
 * run of the interrupt body. The global interrupt-enable bit of SREG is the
 * field `interruptsEnabled`.
 */
module Timer0 {
  import opened Score

  /** Segment patterns for the digits 0 to 9. */
  const SEVEN_SEG_DATA: seq<bv8> := [63, 6, 91, 79, 102, 109, 125, 7, 127, 111]

  /** The value the display shows: the score cut to 16 bits, above 100 shown as 0. */
  function DisplayValue(score: nat): (d: nat)
    ensures d <= 100
    ensures d == 0 || d == score % UINT16_MODULUS
  {
    var v := score % UINT16_MODULUS;
    if v > 100 then 0 else v
  }

  function OnesDigit(d: nat): bv8
  {
    SEVEN_SEG_DATA[d % 10]
  }

  function TensDigit(d: nat): bv8
  {
    SEVEN_SEG_DATA[(d / 10) % 10]
  }

  /**
   * PORTA and PORTC after one run of the display part of the interrupt,
   * given the display value, the flag `xk` and PORTC before.
   */
  function DisplayOutput(d: nat, xk: int, portC: bv8): (out: (bv8, bv8))
    requires d <= 100
    ensures xk != 0 ==> out.0 == 0 && out.1 == portC
    ensures xk == 0 && d < 10 ==> out.0 == OnesDigit(d) && out.1 == portC
    ensures xk == 0 && d >= 10 ==> out.1 == portC ^ 1
    ensures xk == 0 && d >= 10 ==>
      out.0 == (if portC & 1 == 1 then OnesDigit(d) else TensDigit(d))
  {
    if xk != 0 then (0, portC)
    else if d < 10 then (OnesDigit(d), portC)
    else
      var cc := !portC & 0x01;
      (if cc == 0 then OnesDigit(d) else TensDigit(d), portC ^ 1)
  }

  /** Two consecutive interrupts on a two-digit value show each digit once
   * and leave PORTC as it was. */
  lemma TwoTicksShowBothDigits(d: nat, portC: bv8)
    requires 10 <= d <= 100
    ensures var first := DisplayOutput(d, 0, portC);
            var second := DisplayOutput(d, 0, first.1);
            second.1 == portC &&
            multiset{first.0, second.0} == multiset{OnesDigit(d), TensDigit(d)}
  {
    var first := DisplayOutput(d, 0, portC);
    assert first.1 == portC ^ 1;
    assert (portC ^ 1) ^ 1 == portC;
    assert (portC & 1 == 1) != ((portC ^ 1) & 1 == 1);
  }

  /** The PORTC bit cleared for the n-th lost life: 1, 4, 2, 3. */
  function LifeLedMask(n: int): (m: bv8)
    ensures 1 <= n <= 4 ==> m == 2 || m == 4 || m == 8 || m == 16
    ensures !(1 <= n <= 4) ==> m == 0
  {
    match n
    case 1 => 1 << 1
    case 2 => 1 << 4
    case 3 => 1 << 2
    case 4 => 1 << 3
    case _ => 0
  }

  /** Bits 1 to 4 of PORTC: the four life LEDs, lit at the start of a game. */
  const LIFE_LEDS: bv8 := (1 << 1) | (1 << 2) | (1 << 3) | (1 << 4)

  /** Losing lives 1..4 in turn clears each life LED once and no other bit. */
  lemma FourLossesClearAllLifeLeds(portC: bv8)
    ensures LifeLedMask(1) | LifeLedMask(2) | LifeLedMask(3) | LifeLedMask(4) == LIFE_LEDS
    ensures portC & !LifeLedMask(1) & !LifeLedMask(2) & !LifeLedMask(3) & !LifeLedMask(4)
         == portC & !LIFE_LEDS
  {
  }

  /** The AVR `int` that a uint32_t counter becomes when passed as an argument. */
  function AsInt16(v: nat): (r: int)
    ensures -0x8000 <= r < 0x8000
    ensures r % 0x1_0000 == v % 0x1_0000
  {
    var low := v % 0x1_0000;
    if low < 0x8000 then low else low - 0x1_0000
  }

  class Timer0 {
    /** clockTicks: a uint32_t incremented every millisecond */
    var clockTicks: nat
    /** xk: 1 once the game is over, until the flag is consumed */
    var xk: int
    /** displayScore: a uint16_t */
    var displayScore: nat
    /** seven_seg_cc: which digit the last two-digit tick selected */
    var sevenSegCC: bv8
    var portA: bv8
    var portC: bv8
    /** The I bit of SREG. */
    var interruptsEnabled: bool
    /** Every write of the I bit, in order (false for cli, true for sei). */
    ghost var iFlagWrites: seq<bool>
    const scoreKeeper: ScoreKeeper

    ghost predicate Valid()
      reads this
    {
      clockTicks < UINT32_MODULUS && displayScore <= 100
    }

    /** The statics start out zero; interrupts are on once the hardware is set up. */
    constructor (s: ScoreKeeper)
      ensures Valid() && scoreKeeper == s
      ensures clockTicks == 0 && xk == 0 && displayScore == 0
      ensures portA == 0 && portC == 0 && sevenSegCC == 0
      ensures interruptsEnabled && iFlagWrites == []
    {
      scoreKeeper := s;
      clockTicks, xk, displayScore, sevenSegCC := 0, 0, 0, 0;
      portA, portC := 0, 0;
      interruptsEnabled := true;
      iFlagWrites := [];
    }

    /**
     * get_current_time: read the counter with interrupts masked, then put
     * the I bit back as it was. Interrupts are always disabled first and
     * re-enabled only if they were enabled on entry.
     */
    method GetCurrentTime() returns (t: nat)
      requires Valid()
      modifies this`interruptsEnabled, this`iFlagWrites
      ensures Valid()
      ensures t == clockTicks
      ensures interruptsEnabled == old(interruptsEnabled)
      ensures iFlagWrites == old(iFlagWrites) + [false] + (if old(interruptsEnabled) then [true] else [])
    {
      var interruptsOn := interruptsEnabled;
      interruptsEnabled := false;
      iFlagWrites := iFlagWrites + [false];
      t := clockTicks;
      if interruptsOn {
        interruptsEnabled := true;
        iFlagWrites := iFlagWrites + [true];
      }
    }

    /**
     * The body of the compare-match interrupt. The branch for a value that is
     * neither below 10 nor at least 10 cannot be taken and is left out.
     */
    method Tick()
      requires Valid()
      modifies this`clockTicks, this`displayScore, this`sevenSegCC, this`portA, this`portC
      ensures Valid()
      ensures clockTicks == (old(clockTicks) + 1) % UINT32_MODULUS
      ensures displayScore == DisplayValue(scoreKeeper.score)
      ensures (portA, portC) == DisplayOutput(displayScore, xk, old(portC))
      ensures xk == 0 && displayScore >= 10 ==> sevenSegCC == !old(portC) & 0x01
      ensures !(xk == 0 && displayScore >= 10) ==> sevenSegCC == old(sevenSegCC)
    {
      clockTicks := (clockTicks + 1) % UINT32_MODULUS;
      displayScore := scoreKeeper.score % UINT16_MODULUS;
      if displayScore > 100 {
        displayScore := 0;
      }
      portA := 0;
      if xk == 0 {
        if displayScore < 10 {
          portA := SEVEN_SEG_DATA[displayScore % 10];
        } else {
          sevenSegCC := !portC & 0x01;
          if sevenSegCC == 0 {
            portA := SEVEN_SEG_DATA[displayScore % 10];
          } else {
            portA := SEVEN_SEG_DATA[(displayScore / 10) % 10];
          }
          portC := portC ^ 1;
        }
      }
    }

    /** lifeLost: turn off the LED of the lost life; `xk` is 0 afterwards. */
    method LifeLost(led: int)
      requires Valid()
      modifies this`portC, this`xk
      ensures Valid()
      ensures 1 <= led <= 4 ==> portC == old(portC) & !LifeLedMask(led)
      ensures !(1 <= led <= 4) ==> portC == old(portC)
      ensures xk == 0
    {
      match led
      case 1 =>
        ClearPortC(1 << 1);
        xk := 0;
      case 2 =>
        ClearPortC(1 << 4);
        xk := 0;
      case 3 =>
        ClearPortC(1 << 2);
        xk := 0;
      case 4 =>
        ClearPortC(1 << 3);
        xk := 1;
        var _ := ReturnGameState();
      case _ =>
        xk := 0;
    }

    /** PORTC &= ~mask */
    method ClearPortC(mask: bv8)
      modifies this`portC
      ensures portC == old(portC) & !mask
    {
      portC := portC & !mask;
    }

    /**
     * returnGameState: report the flag; a flag of 1 is consumed, so a second
     * call in a row reports 0.
     */
    method ReturnGameState() returns (r: int)
      requires Valid()
      modifies this`xk
      ensures Valid()
      ensures r == old(xk)
      ensures xk == if old(xk) == 1 then 0 else old(xk)
    {
      if xk == 1 {
        ResetX(0);
        return 1;
      }
      return xk;
    }

    /** resetX */
    method ResetX(newX: int)
      modifies this`xk
      ensures xk == newX
    {
      xk := newX;
    }
  }
}
