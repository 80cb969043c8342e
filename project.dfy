/**
 * The play loop: reading one input per iteration (a push button, a plain
 * serial character, or the final character of an `ESC [ X` cursor-key
 * sequence), turning it into at most one game action, the pause toggle,
 * and the two timers that step the projectiles and the asteroids.
 *
 * The locals of play_game and the global FasterGame become the fields of a
 * `Session`; one call of `Iterate` is one test of the loop condition and,
 * if the game goes on, one run of the loop body. The button and the serial
 * byte are parameters; the current time is read from the tick counter.
 */
module Project {
  import opened Position
  import opened Score
  import opened Timer0
  import opened Game

  const ESCAPE_CHAR: int := 27
  /** What button_pushed reports when no button push is waiting. */
  const NO_BUTTON_PUSHED: int := -1
  /** Marks "no character" in serial_input and escape_sequence_char. */
  const NO_CHAR: int := -1
  /** Both timers step every 500 ms; FasterGame shortens the asteroid one. */
  const STEP_INTERVAL: int := 500

  /** A byte read from the serial port stored in an AVR `char`, which is signed. */
  function SignedChar(b: byte): (c: int)
    ensures -128 <= c < 128
    ensures (c - b) % 256 == 0
  {
    if b < 128 then b else b - 256
  }

  // ---------------------------------------------------------------------
  // The escape-sequence decoder

  /**
   * The decoder state after one character, and what the character turns
   * into: `serialInput` for a plain character, `escapeChar` for the final
   * character of `ESC [ X`, NO_CHAR for the other.
   */
  datatype Decoded = Decoded(escState: int, serialInput: int, escapeChar: int)

  /** The decoder step on character `c` read in state `state`. */
  function DecodeSerial(state: int, c: int): (d: Decoded)
    ensures 0 <= d.escState <= 2
    ensures d.serialInput == NO_CHAR || d.escapeChar == NO_CHAR
    ensures d.escState != 0 ==> d.serialInput == NO_CHAR && d.escapeChar == NO_CHAR
    ensures d.serialInput != NO_CHAR ==> d.serialInput == c
    ensures d.escapeChar != NO_CHAR ==> d.escapeChar == c && state == 2
  {
    if state == 0 && c == ESCAPE_CHAR then Decoded(state + 1, NO_CHAR, NO_CHAR)
    else if state == 1 && c == '[' as int then Decoded(state + 1, NO_CHAR, NO_CHAR)
    else if state == 2 then Decoded(0, NO_CHAR, c)
    else Decoded(0, c, NO_CHAR)
  }

  /**
   * The input of one loop iteration: a pushed button wins, and serial input
   * is read (and decoded) only when no button push was waiting.
   */
  function ReadInput(state: int, button: int, serial: Option<byte>): (d: Decoded)
    ensures d.serialInput == NO_CHAR || d.escapeChar == NO_CHAR
    ensures button != NO_BUTTON_PUSHED || serial.None? ==>
      d == Decoded(state, NO_CHAR, NO_CHAR)
    ensures button == NO_BUTTON_PUSHED && serial.Some? ==>
      d == DecodeSerial(state, SignedChar(serial.value))
  {
    if button == NO_BUTTON_PUSHED && serial.Some? then DecodeSerial(state, SignedChar(serial.value))
    else Decoded(state, NO_CHAR, NO_CHAR)
  }

  /** The decoder run over a character stream: the final state and one result per character. */
  function Feed(state: int, cs: seq<int>): (r: (int, seq<Decoded>))
    ensures |r.1| == |cs|
    ensures cs != [] ==> 0 <= r.0 <= 2
  {
    if cs == [] then (state, [])
    else
      var before := Feed(state, cs[..|cs| - 1]);
      var d := DecodeSerial(before.0, cs[|cs| - 1]);
      (d.escState, before.1 + [d])
  }

  /** Feeding one more character is one more decoder step. */
  lemma FeedSnoc(state: int, cs: seq<int>, c: int)
    ensures var before := Feed(state, cs);
            var d := DecodeSerial(before.0, c);
            Feed(state, cs + [c]) == (d.escState, before.1 + [d])
  {
    assert (cs + [c])[..|cs|] == cs;
  }

  /**
   * Soundness of the decoder from the idle state (section 5.4 of ECMA-48,
   * a control sequence without parameters): a character is reported as
   * `escapeChar` only when it is the final character X of `ESC [ X`, and
   * the decoder is in state 1 or 2 only just after `ESC` or `ESC [`.
   */
  lemma {:induction false} EscapeOnlyAfterIntroducer(cs: seq<int>)
    ensures var r := Feed(0, cs);
            (r.0 == 1 ==> |cs| >= 1 && cs[|cs| - 1] == ESCAPE_CHAR) &&
            (r.0 == 2 ==> |cs| >= 2 && cs[|cs| - 2] == ESCAPE_CHAR && cs[|cs| - 1] == '[' as int) &&
            forall i :: 0 <= i < |cs| && r.1[i].escapeChar != NO_CHAR ==>
              2 <= i && cs[i - 2] == ESCAPE_CHAR && cs[i - 1] == '[' as int && r.1[i].escapeChar == cs[i]
  {
    if cs != [] {
      var init := cs[..|cs| - 1];
      var c := cs[|cs| - 1];
      EscapeOnlyAfterIntroducer(init);
      FeedSnoc(0, init, c);
      assert init + [c] == cs;
      var before := Feed(0, init);
      var r := Feed(0, cs);
      forall i | 0 <= i < |cs| && r.1[i].escapeChar != NO_CHAR
        ensures 2 <= i && cs[i - 2] == ESCAPE_CHAR && cs[i - 1] == '[' as int && r.1[i].escapeChar == cs[i]
      {
        if i < |init| {
          assert r.1[i] == before.1[i];
          assert cs[i - 2] == init[i - 2] && cs[i - 1] == init[i - 1] && cs[i] == init[i];
        } else {
          assert before.0 == 2;
          assert cs[i - 2] == init[|init| - 2] && cs[i - 1] == init[|init| - 1];
        }
      }
    }
  }

  /**
   * Completeness: from the idle state, `ESC [ X` is swallowed in its first
   * two characters and delivers X as `escapeChar`, back in the idle state.
   */
  lemma ControlSequenceDecoded(cs: seq<int>, x: int)
    requires Feed(0, cs).0 == 0
    ensures var r := Feed(0, cs + [ESCAPE_CHAR, '[' as int, x]);
            r.0 == 0 &&
            r.1 == Feed(0, cs).1 + [Decoded(1, NO_CHAR, NO_CHAR), Decoded(2, NO_CHAR, NO_CHAR), Decoded(0, NO_CHAR, x)]
  {
    FeedSnoc(0, cs, ESCAPE_CHAR);
    FeedSnoc(0, cs + [ESCAPE_CHAR], '[' as int);
    FeedSnoc(0, cs + [ESCAPE_CHAR] + ['[' as int], x);
    assert cs + [ESCAPE_CHAR] + ['[' as int] + [x] == cs + [ESCAPE_CHAR, '[' as int, x];
  }

  /** Text without ESC passes through the idle decoder unchanged, character by character. */
  lemma {:induction false} PlainTextPassesThrough(cs: seq<int>)
    requires forall i :: 0 <= i < |cs| ==> cs[i] != ESCAPE_CHAR
    ensures Feed(0, cs).0 == 0
    ensures forall i :: 0 <= i < |cs| ==> Feed(0, cs).1[i] == Decoded(0, cs[i], NO_CHAR)
  {
    if cs != [] {
      var init := cs[..|cs| - 1];
      PlainTextPassesThrough(init);
      FeedSnoc(0, init, cs[|cs| - 1]);
      assert init + [cs[|cs| - 1]] == cs;
    }
  }

  /**
   * An `ESC` followed by anything but `[` is lost, and that second
   * character is passed on as plain input.
   */
  lemma BrokenIntroducerPassesSecondChar(cs: seq<int>, c: int)
    requires Feed(0, cs).0 == 0 && c != '[' as int
    ensures var r := Feed(0, cs + [ESCAPE_CHAR] + [c]);
            r.0 == 0 && r.1 == Feed(0, cs).1 + [Decoded(1, NO_CHAR, NO_CHAR), Decoded(0, c, NO_CHAR)]
  {
    FeedSnoc(0, cs, ESCAPE_CHAR);
    FeedSnoc(0, cs + [ESCAPE_CHAR], c);
  }

  // ---------------------------------------------------------------------
  // Dispatch and pause

  /** The outcome of the if-else chain on the input: one branch, or none. */
  datatype Action = MoveLeft | Fire | Ignored | MoveRight | NoAction

  function Dispatch(button: int, escapeChar: int, serialInput: int): Action
  {
    if button == 3 || escapeChar == 'D' as int || serialInput == 'L' as int || serialInput == 'l' as int then MoveLeft
    else if button == 2 || escapeChar == 'A' as int || serialInput == ' ' as int then Fire
    else if button == 1 || escapeChar == 'B' as int then Ignored
    else if button == 0 || escapeChar == 'C' as int || serialInput == 'R' as int || serialInput == 'r' as int then MoveRight
    else NoAction
  }

  /** The keys that map to an action, one source at a time. */
  lemma KeyBindings(b: int, x: int, c: int)
    ensures 0 <= b <= 3 ==> Dispatch(b, NO_CHAR, NO_CHAR) == [MoveRight, Ignored, Fire, MoveLeft][b]
    ensures Dispatch(NO_BUTTON_PUSHED, x, NO_CHAR) ==
      if x == 'D' as int then MoveLeft else if x == 'A' as int then Fire
      else if x == 'B' as int then Ignored else if x == 'C' as int then MoveRight else NoAction
    ensures Dispatch(NO_BUTTON_PUSHED, NO_CHAR, c) ==
      if c == 'L' as int || c == 'l' as int then MoveLeft else if c == ' ' as int then Fire
      else if c == 'R' as int || c == 'r' as int then MoveRight else NoAction
  {
  }

  /**
   * The base position and the live projectiles after the chosen branch:
   * move_base one column (never past 0 or 7), or fire_projectile, which
   * appends a projectile at (base, 2) when fewer than four are in flight and
   * none is on that cell.
   */
  function Acted(action: Action, base: int, shots: seq<byte>): (int, seq<byte>)
    requires 0 <= base <= 7
  {
    match action
    case MoveLeft => (if base > 0 then base - 1 else base, shots)
    case MoveRight => (if base < 7 then base + 1 else base, shots)
    case Fire =>
      var p := GamePosition(base, 2);
      (base, if |shots| < MAX_PROJECTILES && p !in shots then shots + [p] else shots)
    case Ignored => (base, shots)
    case NoAction => (base, shots)
  }

  /** Input is acted on only while the game is not paused. */
  function InputEffect(paused: bool, action: Action, base: int, shots: seq<byte>): (int, seq<byte>)
    requires 0 <= base <= 7
  {
    if paused then (base, shots) else Acted(action, base, shots)
  }

  /**
   * An action keeps the base on the field and at most four projectiles in
   * flight; it only ever adds the projectile just above the base, and only
   * when firing.
   */
  lemma ActedKeepsField(action: Action, base: int, shots: seq<byte>)
    requires 0 <= base <= 7 && |shots| <= MAX_PROJECTILES
    ensures var r := Acted(action, base, shots);
            0 <= r.0 <= 7 && |r.1| <= MAX_PROJECTILES &&
            (r.1 == shots || (action == Fire && r.1 == shots + [GamePosition(base, 2)]))
  {
  }

  /** Away from the edges, a move left and a move right undo each other. */
  lemma MovesUndo(base: int, shots: seq<byte>)
    requires 0 < base < 7
    ensures Acted(MoveRight, Acted(MoveLeft, base, shots).0, shots) == (base, shots)
    ensures Acted(MoveLeft, Acted(MoveRight, base, shots).0, shots) == (base, shots)
  {
  }

  /** Firing twice without a step between adds one projectile at most: the second finds the first on its cell. */
  lemma FireOnce(base: int, shots: seq<byte>)
    requires 0 <= base <= 7
    ensures var r := Acted(Fire, base, shots);
            Acted(Fire, r.0, r.1) == r
  {
  }

  /** Button 1 or the letter p toggles the pause, whatever the state. */
  predicate PauseRequested(button: int, serialInput: int)
  {
    button == 1 || serialInput == 'p' as int || serialInput == 'P' as int
  }

  // ---------------------------------------------------------------------
  // Timing

  /** `t + interval` as a uint32_t sum: it wraps past 2^32 - 1. */
  function Deadline(t: nat, interval: int): (d: nat)
    ensures d < UINT32_MODULUS
    ensures 0 <= t + interval < UINT32_MODULUS ==> d == t + interval
  {
    (t + interval) % UINT32_MODULUS
  }

  /** A timer is due when the current time has reached the (wrapped) deadline. */
  predicate Due(now: nat, last: nat, interval: int)
  {
    now >= Deadline(last, interval)
  }

  /** Away from the wrap, a timer is due exactly when `interval` ms have passed. */
  lemma DueIffElapsed(now: nat, last: nat, interval: int)
    requires 0 <= last + interval < UINT32_MODULUS
    ensures Due(now, last, interval) <==> now - last >= interval
  {
  }

  /**
   * Near the top of the 32-bit clock the deadline wraps to a small value,
   * so a timer is due again on every iteration until the clock wraps too.
   */
  lemma DueAcrossWrap(now: nat, last: nat, interval: int)
    requires 0 <= interval < UINT32_MODULUS && last < UINT32_MODULUS <= last + interval && last <= now
    ensures Due(now, last, interval)
  {
  }

  /** The values FasterGame can hold: 0, 10, ..., 100 and 200. */
  predicate FasterGameStep(f: int)
  {
    f == 200 || (0 <= f <= 100 && f % 10 == 0)
  }

  /** The FasterGame update before an asteroid step, given the score. */
  function NextFasterGame(f: int, score: nat): int
  {
    var raised := if score > 10 && f < 400 then f + 10 else f;
    if raised > 100 then 200 else raised
  }

  /**
   * FasterGame keeps to its steps, never decreases, rises only while the
   * score is above 10, and the asteroid interval never drops below 300 ms.
   */
  lemma FasterGameBounds(f: int, score: nat)
    requires FasterGameStep(f)
    ensures FasterGameStep(NextFasterGame(f, score))
    ensures f <= NextFasterGame(f, score)
    ensures score <= 10 ==> NextFasterGame(f, score) == f
    ensures score > 10 && f < 100 ==> NextFasterGame(f, score) == f + 10
    ensures STEP_INTERVAL - NextFasterGame(f, score) >= 300
  {
  }

  // ---------------------------------------------------------------------
  // The session

  /**
   * The state a loop body works on: the session fields, the base, the live
   * projectiles, all twenty asteroid slots and the live asteroids, the
   * score total, the lives bookkeeping and the stall flag.
   */
  datatype SessionState = SessionState(
    escState: int, paused: bool, lastMoveTime: nat, asteroidTime: nat, fasterGame: int,
    base: int, shots: seq<byte>, slots: seq<byte>, rocks: seq<byte>, total: nat, lives: Lives, stalled: bool)

  /**
   * Handling the input of one iteration from state `s`: the decoder and
   * the pause toggle follow the input, and the base and the projectiles
   * take the input's effect unless the game was paused. Nothing else
   * changes.
   */
  ghost predicate InputDone(s: SessionState, s': SessionState, button: int, serial: Option<byte>)
  {
    0 <= s.base <= 7 &&
    var d := ReadInput(s.escState, button, serial);
    var input := InputEffect(s.paused, Dispatch(button, d.escapeChar, d.serialInput), s.base, s.shots);
    s' == s.(escState := d.escState, paused := s.paused != PauseRequested(button, d.serialInput),
             base := input.0, shots := input.1)
  }

  /**
   * The projectile timer at time `now` from state `s`: it fires when 500 ms
   * have passed and the game is not paused. The step hits exactly when a
   * live projectile shares a byte with an asteroid slot, every hit scores 1,
   * and without a hit every projectile moves up or leaves the field and
   * nothing else changes. It touches neither the base nor the lives, and it
   * stalls only on a full top row.
   */
  ghost predicate ShotsDone(s: SessionState, s': SessionState, now: nat, moved: bool, hits: nat)
  {
    (moved <==> !s.paused && Due(now, s.lastMoveTime, STEP_INTERVAL)) &&
    (!moved ==> hits == 0 && s' == s) &&
    (moved ==>
      s'.lastMoveTime == now && s'.total == s.total + hits &&
      (hits == 0 <==> NoHit(s.shots, s.slots)) &&
      s'.(lastMoveTime := s.lastMoveTime, shots := s.shots, slots := s.slots, rocks := s.rocks,
          total := s.total, stalled := s.stalled) == s) &&
    (hits == 0 ==> !s'.stalled && s' == s.(lastMoveTime := s'.lastMoveTime, shots := s'.shots)) &&
    (moved && hits == 0 ==> s'.shots == Advanced(s.shots)) &&
    (s'.stalled ==> TopRowFull(s'.rocks, FIELD_WIDTH))
  }

  /**
   * The asteroid timer at time `now` from state `s`: it fires when
   * `500 - FasterGame` ms have passed and the game is not paused. It then
   * updates FasterGame from the score, and every asteroid falls one row;
   * every landing costs a life (the lives follow LivesAfter, pass by pass). Without a landing the
   * asteroids are exactly the fallen ones. It touches neither the base nor
   * the projectiles nor the score, and it stalls only on a full top row.
   */
  ghost predicate RocksDone(s: SessionState, s': SessionState, now: nat, moved: bool, lost: nat, landings: seq<bool>)
  {
    (moved <==> !s.paused && Due(now, s.asteroidTime, STEP_INTERVAL - s.fasterGame)) &&
    lost == CountTrue(landings) &&
    (!moved ==> landings == [] && s' == s) &&
    (moved ==>
      s'.asteroidTime == now && s'.fasterGame == NextFasterGame(s.fasterGame, s.total % UINT32_MODULUS) &&
      |s'.rocks| == |s.rocks| - lost &&
      s'.lives == LivesAfter(s.lives.(temp := 0), landings) &&
      (lost == 0 <==> NoLanding(s.rocks, s.base)) &&
      (lost == 0 ==> !s'.stalled && s'.rocks == Fallen(s.rocks)) &&
      s'.(asteroidTime := s.asteroidTime, fasterGame := s.fasterGame, slots := s.slots, rocks := s.rocks,
          lives := s.lives, stalled := s.stalled) == s) &&
    (s'.stalled ==> TopRowFull(s'.rocks, 16))
  }

  /** The asteroid step as the loop body runs it: skipped once the projectile step has stalled. */
  ghost predicate TimedRocks(s: SessionState, s': SessionState, now: nat, moved: bool, lost: nat, landings: seq<bool>)
  {
    if s.stalled then !moved && landings == [] && lost == 0 && s' == s
    else RocksDone(s, s', now, moved, lost, landings)
  }

  /**
   * One iteration of the play loop, end to end: the score goes up by the
   * hits, every landing costs a life, and the base ends where the input
   * put it. Without a hit or a landing the projectiles are the input's
   * projectiles advanced one row and the asteroids have fallen one row; a
   * paused game that stays paused moves nothing.
   */
  lemma IterationAccounts(s0: SessionState, s1: SessionState, s2: SessionState, s3: SessionState,
                          button: int, serial: Option<byte>, now: nat, shotsMoved: bool, rocksMoved: bool,
                          hits: nat, lost: nat, landings: seq<bool>)
    requires s0.lives.counter < UINT32_MODULUS
    requires InputDone(s0, s1, button, serial)
    requires ShotsDone(s1, s2, now, shotsMoved, hits)
    requires TimedRocks(s2, s3, now, rocksMoved, lost, landings)
    ensures var d := ReadInput(s0.escState, button, serial);
            var input := InputEffect(s0.paused, Dispatch(button, d.escapeChar, d.serialInput), s0.base, s0.shots);
            s3.base == input.0 && s3.total == s0.total + hits &&
            s3.lives.counter == (s0.lives.counter + lost) % UINT32_MODULUS &&
            (shotsMoved && rocksMoved && hits == 0 && lost == 0 ==>
              s3.shots == Advanced(input.1) && s3.rocks == Fallen(s0.rocks) && !s3.stalled) &&
            (s0.paused && s1.paused ==> s3.base == s0.base && s3.shots == s0.shots && s3.rocks == s0.rocks)
  {
    if rocksMoved {
      LivesCounted(s2.lives.(temp := 0), landings);
    }
  }

  class Session {
    const game: Game
    /** characters_into_escape_sequence */
    var escState: int
    /** pauseGame */
    var paused: bool
    /** last_move_time: when the projectiles last moved */
    var lastMoveTime: nat
    /** asteroid_time: when the asteroids last fell */
    var asteroidTime: nat
    /** The global FasterGame: milliseconds taken off the asteroid interval. */
    var fasterGame: int

    ghost function Repr(): set<object>
      reads this, game
    {
      {this} + game.Repr()
    }

    ghost predicate Valid()
      reads this, game, game.Repr()
    {
      game.Valid() && 0 <= escState <= 2 &&
      lastMoveTime < UINT32_MODULUS && asteroidTime < UINT32_MODULUS &&
      FasterGameStep(fasterGame)
    }

    constructor (g: Game)
      requires g.Valid()
      ensures Valid() && game == g
      ensures escState == 0 && !paused && fasterGame == 0
    {
      game := g;
      escState, paused := 0, false;
      lastMoveTime, asteroidTime, fasterGame := 0, 0, 0;
    }

    /**
     * new_game: a fresh field, then the score back to zero. Clearing the
     * terminal and discarding waiting input are not modelled.
     */
    method NewGame()
      requires Valid()
      modifies game`basePosition, game`numProjectiles, game`numAsteroids, game.asteroids,
               game.timer`portC, game.score
      ensures Valid()
      ensures game.basePosition == 3 && game.numProjectiles == 0 && game.numAsteroids == MAX_ASTEROIDS
      ensures Distinct(game.Asteroids())
      ensures forall i :: 0 <= i < game.numAsteroids ==> InStartArea(game.asteroids[i])
      ensures game.timer.portC == LIFE_LEDS
      ensures game.score.score == 0
    {
      game.InitialiseGame();
      game.score.InitScore();
    }

    /**
     * The part of play_game before the loop: both timers start at the
     * current time, FasterGame at 0, the decoder idle and the game unpaused.
     * If a game-over flag is still pending it is consumed here, and any
     * `button` other than 0 then calls lifeLost(0), which clears the flag.
     */
    method StartPlay(button: int)
      requires Valid()
      modifies this, game`counter, game`temp, game.timer
      ensures Valid()
      ensures lastMoveTime == asteroidTime == game.timer.clockTicks == old(game.timer.clockTicks)
      ensures fasterGame == 0 && escState == 0 && !paused
      ensures game.timer.interruptsEnabled == old(game.timer.interruptsEnabled)
      ensures game.timer.portC == old(game.timer.portC)
      ensures old(game.timer.xk) == 1 ==> game.counter == 0 && game.temp == 0 && game.timer.xk == 0
      ensures old(game.timer.xk) != 1 ==>
        game.counter == old(game.counter) && game.temp == old(game.temp) && game.timer.xk == old(game.timer.xk)
    {
      var now := game.timer.GetCurrentTime();
      lastMoveTime := now;
      asteroidTime := now;
      fasterGame := 0;
      escState := 0;
      paused := false;
      var over := game.IsGameOver();
      if over {
        fasterGame := 0;
        if button != 0 {
          game.timer.LifeLost(0);
        }
      }
    }

    /**
     * One test of the loop condition and, while the game goes on, one run
     * of the loop body. `running` is false when is_game_over reported the
     * end, or when an earlier placement retry never ends (the loop then
     * never comes back). The body goes from the state on entry through
     * `afterInput` and `afterShots` to the final state.
     */
    method Iterate(button: int, serial: Option<byte>)
      returns (running: bool, ghost afterInput: SessionState, ghost afterShots: SessionState,
               ghost shotsMoved: bool, ghost rocksMoved: bool,
               ghost hits: nat, ghost lost: nat, ghost landings: seq<bool>)
      requires Valid()
      modifies this, game, game.projectiles, game.asteroids, game.score, game.timer
      ensures Valid()
      ensures running <==> !old(game.stalled) && old(game.timer.xk) != 1
      ensures !old(game.stalled) && !running ==>
        game.counter == 0 && game.temp == 0 && game.timer.xk == 0
      ensures !running ==>
        escState == old(escState) && paused == old(paused) &&
        game.basePosition == old(game.basePosition) &&
        game.Projectiles() == old(game.Projectiles()) && game.Asteroids() == old(game.Asteroids())
      ensures running ==>
        InputDone(old(Snapshot()), afterInput, button, serial) &&
        ShotsDone(afterInput, afterShots, old(game.timer.clockTicks), shotsMoved, hits) &&
        TimedRocks(afterShots, Snapshot(), old(game.timer.clockTicks), rocksMoved, lost, landings)
      ensures game.timer.clockTicks == old(game.timer.clockTicks)
    {
      running, afterInput, afterShots := false, Snapshot(), Snapshot();
      shotsMoved, rocksMoved, hits, lost, landings := false, false, 0, 0, [];
      if game.stalled {
        return;
      }
      var over := game.IsGameOver();
      if over {
        return;
      }
      running := true;
      afterInput, afterShots, shotsMoved, rocksMoved, hits, lost, landings := LoopBody(button, serial);
    }

    /** The loop body of play_game: the input, then the two timed steps at the current time. */
    method LoopBody(button: int, serial: Option<byte>)
      returns (ghost afterInput: SessionState, ghost afterShots: SessionState,
               ghost shotsMoved: bool, ghost rocksMoved: bool,
               ghost hits: nat, ghost lost: nat, ghost landings: seq<bool>)
      requires Valid() && !game.stalled && game.timer.xk != 1
      modifies this`escState, this`paused, this`lastMoveTime, this`asteroidTime, this`fasterGame,
               game, game.projectiles, game.asteroids, game.score, game.timer
      ensures Valid()
      ensures InputDone(old(Snapshot()), afterInput, button, serial)
      ensures ShotsDone(afterInput, afterShots, old(game.timer.clockTicks), shotsMoved, hits)
      ensures TimedRocks(afterShots, Snapshot(), old(game.timer.clockTicks), rocksMoved, lost, landings)
      ensures game.timer.clockTicks == old(game.timer.clockTicks)
    {
      HandleInput(button, serial);
      afterInput := Snapshot();
      var now := game.timer.GetCurrentTime();
      assert Snapshot() == afterInput;
      shotsMoved, rocksMoved, afterShots, hits, lost, landings := StepTimers(now);
    }

    /** The session and game state the loop body reads and writes. */
    ghost function Snapshot(): SessionState
      reads this, game, game.Repr()
      requires game.Valid()
    {
      SessionState(escState, paused, lastMoveTime, asteroidTime, fasterGame,
                   game.basePosition, game.Projectiles(), game.asteroids[..], game.Asteroids(),
                   game.score.total, game.LivesOf(), game.stalled)
    }

    /**
     * Reading and decoding the input, acting on it unless paused, and the
     * pause toggle.
     */
    method HandleInput(button: int, serial: Option<byte>)
      requires Valid()
      modifies this`escState, this`paused, game`basePosition, game`numProjectiles, game.projectiles
      ensures Valid()
      ensures InputDone(old(Snapshot()), Snapshot(), button, serial)
    {
      var d := ReadInput(escState, button, serial);
      escState := d.escState;
      if !paused {
        Act(Dispatch(button, d.escapeChar, d.serialInput));
      }
      if PauseRequested(button, d.serialInput) {
        paused := !paused;
      }
    }

    /**
     * The two timed steps of one iteration at time `now`, projectiles first.
     * If the projectile step stalls the game, the asteroid step never runs.
     */
    method StepTimers(now: nat)
      returns (shotsMoved: bool, rocksMoved: bool, ghost afterShots: SessionState,
               ghost hits: nat, ghost lost: nat, ghost landings: seq<bool>)
      requires Valid() && !game.stalled && game.timer.xk != 1 && now < UINT32_MODULUS
      modifies this`lastMoveTime, this`asteroidTime, this`fasterGame, game, game.projectiles, game.asteroids,
               game.score, game.timer`xk, game.timer`portC
      ensures Valid()
      ensures ShotsDone(old(Snapshot()), afterShots, now, shotsMoved, hits)
      ensures TimedRocks(afterShots, Snapshot(), now, rocksMoved, lost, landings)
    {
      rocksMoved, lost, landings := false, 0, [];
      shotsMoved, hits := StepProjectilesIfDue(now);
      afterShots := Snapshot();
      if game.stalled {
        return;
      }
      rocksMoved, lost, landings := StepAsteroidsIfDue(now);
    }

    /** The effect of the chosen branch on the game. */
    method Act(action: Action)
      requires Valid()
      modifies game`basePosition, game`numProjectiles, game.projectiles
      ensures Valid()
      ensures game.Asteroids() == old(game.Asteroids())
      ensures (game.basePosition, game.Projectiles()) ==
        Acted(action, old(game.basePosition), old(game.Projectiles()))
    {
      match action
      case MoveLeft =>
        var _ := game.MoveBase(MOVE_LEFT);
      case Fire =>
        var _ := game.FireProjectile();
      case MoveRight =>
        var _ := game.MoveBase(MOVE_RIGHT);
      case Ignored =>
      case NoAction =>
    }

    /**
     * The projectile timer: is_game_over is asked again (it cannot report
     * the end here, since the loop test has just consumed the flag), then
     * the projectiles advance if 500 ms have passed and the game is not paused.
     */
    method StepProjectilesIfDue(now: nat) returns (moved: bool, ghost hits: nat)
      requires Valid() && !game.stalled && game.timer.xk != 1 && now < UINT32_MODULUS
      modifies this`lastMoveTime, game, game.projectiles, game.asteroids, game.score, game.timer`xk
      ensures Valid()
      ensures ShotsDone(old(Snapshot()), Snapshot(), now, moved, hits)
    {
      hits := 0;
      var over := game.IsGameOver();
      moved := !over && now >= Deadline(lastMoveTime, STEP_INTERVAL) && !paused;
      if moved {
        hits := game.AdvanceProjectiles();
        lastMoveTime := now;
      }
    }

    /**
     * The asteroid timer: with the interval shortened by FasterGame, which
     * is first updated from the score, the asteroids fall one row.
     */
    method StepAsteroidsIfDue(now: nat) returns (moved: bool, ghost lost: nat, ghost landings: seq<bool>)
      requires Valid() && !game.stalled && game.timer.xk != 1 && now < UINT32_MODULUS
      modifies this`asteroidTime, this`fasterGame, game`numAsteroids, game`counter, game`temp, game`stalled,
               game.asteroids, game.timer`portC, game.timer`xk
      ensures Valid()
      ensures RocksDone(old(Snapshot()), Snapshot(), now, moved, lost, landings)
    {
      lost, landings := 0, [];
      var over := game.IsGameOver();
      moved := !over && now >= Deadline(asteroidTime, STEP_INTERVAL - fasterGame) && !paused;
      if moved {
        lost, landings := DropAsteroids(now);
      }
    }

    /** The asteroid step once its timer is due: FasterGame from the score, then the fall. */
    method DropAsteroids(now: nat) returns (ghost lost: nat, ghost landings: seq<bool>)
      requires Valid() && !game.stalled && now < UINT32_MODULUS
      modifies this`asteroidTime, this`fasterGame, game`numAsteroids, game`counter, game`temp, game`stalled,
               game.asteroids, game.timer`portC, game.timer`xk
      ensures Valid()
      ensures var s, s' := old(Snapshot()), Snapshot();
        lost == CountTrue(landings) &&
        s'.asteroidTime == now && s'.fasterGame == NextFasterGame(s.fasterGame, s.total % UINT32_MODULUS) &&
        |s'.rocks| == |s.rocks| - lost &&
        s'.lives == LivesAfter(s.lives.(temp := 0), landings) &&
        (lost == 0 <==> NoLanding(s.rocks, s.base)) &&
        (lost == 0 ==> !s'.stalled && s'.rocks == Fallen(s.rocks)) &&
        s'.(asteroidTime := s.asteroidTime, fasterGame := s.fasterGame, slots := s.slots, rocks := s.rocks,
            lives := s.lives, stalled := s.stalled) == s &&
        (s'.stalled ==> TopRowFull(s'.rocks, 16))
    {
      var score := game.score.GetScore();
      SpeedUp(score);
      lost, landings := game.AdvanceFallingAsteroid();
      asteroidTime := now;
    }

    /** The FasterGame update from the score before an asteroid step. */
    method SpeedUp(score: nat)
      requires FasterGameStep(fasterGame)
      modifies this`fasterGame
      ensures fasterGame == NextFasterGame(old(fasterGame), score)
      ensures FasterGameStep(fasterGame)
    {
      FasterGameBounds(fasterGame, score);
      if score > 10 && fasterGame < 400 {
        fasterGame := fasterGame + 10;
      }
      if fasterGame > 100 {
        fasterGame := 200;
      }
    }
  }
}
