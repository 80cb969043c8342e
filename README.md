# Asteroids on an AVR: a verified model of the game core

This project models the core of an asteroid-shooting game for an ATmega
board in Dafny. The board has a 16 x 8 LED matrix, a seven-segment display,
four life LEDs on PORTC, push buttons and a serial terminal. Its game logic
is written in C.

The project proves properties of that model. Each C module becomes one
Dafny module:

- `position.dfy` (`Position`): the packed one-byte game position (x in the
  high nibble, y in the low one), the `INVALID_POSITION` sentinel, and the
  counting argument that a free start cell always exists.
- `score.dfy` (`Score`): the 32-bit score accumulator.
- `timer0.dfy` (`Timer0`): the millisecond tick, the seven-segment
  multiplexing done by the timer interrupt, the life LEDs and the
  game-over flag `xk`.
- `game.dfy` (`Game`): the playing field, with its base, up to 4
  projectiles and up to 20 asteroids. It covers moving and firing,
  projectile advance with collisions, asteroid fall with life loss, and
  the game-over test.
- `project.dfy` (`Project`): one iteration of the main loop. That is the
  serial escape-sequence decoder, the button and key bindings, pause, the
  projectile and asteroid timers, and the `FasterGame` speed-up. It also
  has the `new_game` sequencing and the set-up before the loop.
- `ledmatrix.dfy` (`LedMatrix`): the command frames sent to the LED matrix
  over SPI, and the row and column buffer helpers.
- `scrolling.dfy` (`Scrolling`): the scrolling-text state machine and its
  font.

Mutable C globals become fields of classes whose methods change them in
place:

- `ScoreKeeper`;
- `Timer0`;
- `Game`, whose fixed-size `projectiles` and `asteroids` arrays stay
  arrays;
- `Session`, for the locals of `play_game`;
- `Spi`, which holds the log of bytes sent;
- `ScrollingDisplay`.

The methods that compute a value or move objects are proved against
specification functions: `Advanced` for the projectile step, `Fallen` for
a quiet asteroid step, `LivesAfter` for the lives kept during an asteroid
step, and `Acted` for the player's input. Lemmas about those functions
prove what the game promises. The loop body of `play_game` is stated on
pure snapshots of the session (`SessionState`): `InputDone`, `ShotsDone`
and `RocksDone` each give the state after one phase in terms of the state
before it, and `IterationAccounts` composes the three.

A `uint8_t` is the subset type `byte` (0..255) over `int`. Shifts and
masks on positions are written as the equivalent arithmetic on the byte's
value. The registers PORTA/PORTC and the scroller's column byte are `bv8`.

`uint32_t` values are naturals reduced modulo 2^32 wherever the C code
would wrap. This applies to the score, the tick counter, `counter` and
the timer deadlines `current_time >= last + interval`.

Every `random()` retry loop is an arbitrary choice among the cells the loop
would accept. When no such cell exists the C loop never ends. The model
then sets `Game.stalled` and stops, and the main loop reports that it is
no longer running.

The model follows the code as written where it differs from what the
comments suggest:

- The collision scan of `advance_projectiles` runs over all 20 asteroid
  slots, including stale ones past `numAsteroids`. After a hit it keeps
  comparing against the same coordinates.
- After a hit, the end of the loop body moves or removes whichever
  projectile now occupies the slot.
- In `advance_falling_astroid`, `pos_y` is a `uint8_t`. The test
  `pos_y == -1` is therefore never true, and an asteroid on row 0 wraps to
  row 15 instead of being removed. `Game.Fall` and `Game.LandsMeaning`
  state this.
- `lifeLost` takes an `int`, which is 16 bits on the AVR, so `counter` is
  passed truncated (`Timer0.AsInt16`).
- `advance_falling_astroid` raises the game-over flag only from the lives
  report at the top of the loop body, and `lifeLost` always lowers it
  again. The flag therefore survives a pass only if the fourth life was
  lost and a later asteroid of the same pass did not land
  (`Game.PassFlag`, `Game.FourthLossRaisesFlag`). If a later asteroid of
  that pass also lands, the counter passes 4 and no pass raises the flag
  again, so the game does not end (`Game.FifthLandingLosesGameOver`,
  `Game.FifthLandingExample`).
- `scroll_display` stops at the first NUL it reads. Text after an embedded
  NUL is never shown, and a sequence that runs out is read as ending there
  too (`Scrolling.AtEnd`).
- Inside the main loop, the `is_game_over()` calls before each timer step
  can never return 1. The loop test just before them has already read and
  cleared the flag, and nothing in between sets it. `StepTimers` takes
  this as a precondition.

## Model

| member | source | states |
|---|---|---|
| Position.GamePosition | game.c:44 | the stored byte decodes to x mod 16 and y mod 16 (bits shifted out of a `uint8_t` are lost) |
| Position.GetX | game.c:45 | the x nibble is below 16 |
| Position.GetY | game.c:46 | the y nibble is below 16 |
| Position.DecodeEncode | game.c:44-46 | re-encoding the two nibbles of any byte gives the byte back |
| Position.SameCellIff | game.c:44-46 | two positions are equal exactly when both coordinates are equal |
| Position.EncodeInjective | game.c:44-46 | distinct coordinates below 16 encode to distinct bytes |
| Position.InvalidIsOffField | game.c:47 | 255 decodes to column 15, so it never equals a position on the 8-wide field |
| Position.FreeStartCellExists | game.c:141-153 | with fewer than 104 asteroids placed, it returns a free cell with x in 0..7 and y in 3..15, so the placement retry loop ends |
| Score.ScoreKeeper.constructor | score.c:9 | the score starts at 0 |
| Score.ScoreKeeper.InitScore | score.c:11-13 | the score becomes 0 |
| Score.ScoreKeeper.AddToScore | score.c:15-17 | a 16-bit value is added with 32-bit wrap-around; the stored score stays the true total mod 2^32 |
| Score.ScoreKeeper.GetScore | score.c:19-21 | returns the stored score, below 2^32 |
| Timer0.DisplayValue | timer0.c:102-109 | the shown score is 0 above 100, else the score cut to 16 bits |
| Timer0.DisplayOutput | timer0.c:118-142 | while `xk` is nonzero PORTA is blank; a one-digit score shows its ones digit; a two-digit score alternates the digit by PORTC bit 0 and toggles that bit |
| Timer0.TwoTicksShowBothDigits | timer0.c:125-141 | two consecutive ticks show the ones and the tens digit once each and restore PORTC bit 0 |
| Timer0.LifeLedMask | timer0.c:153-178 | lives 1..4 select one of PORTC bits 1..4, anything else none |
| Timer0.FourLossesClearAllLifeLeds | timer0.c:153-178 | the four lost-life masks together are exactly the four life LEDs |
| Timer0.AsInt16 | timer0.c:153 | the value passed as a 16-bit `int` is in range and congruent mod 2^16 |
| Timer0.Timer0.constructor | timer0.c:24-37 | the statics start at zero with interrupts enabled |
| Timer0.Timer0.GetCurrentTime | timer0.c:79-97 | returns the tick count read with interrupts masked, and leaves the interrupt flag as it was |
| Timer0.Timer0.Tick | timer0.c:98-152 | the tick count advances mod 2^32 and the displays are driven as `DisplayOutput` says |
| Timer0.Timer0.LifeLost | timer0.c:153-180 | lives 1..4 clear their LED and nothing else on PORTC; `xk` becomes 0 |
| Timer0.Timer0.ReturnGameState | timer0.c:181-188 | returns `xk` and clears it when it was 1 |
| Timer0.Timer0.ResetX | timer0.c:189-191 | `xk` takes the new value |
| Game.Up | game.c:406-418 | one row up in the same column |
| Game.Moved | game.c:393-423 | a projectile on the top row disappears, any other moves to exactly one position |
| Game.MovedAt | game.c:393-423 | a projectile at (x, y) leaves the field at y = 15, else moves to (x, y+1) |
| Game.AdvancedMeaning | game.c:329-427 | a quiet advance drops exactly the top-row projectiles: every result is a non-top projectile moved up a row, and every non-top projectile moved up a row is in the result |
| Game.AdvancedConcat | game.c:329-427 | the slots are advanced one at a time in order, so advancing a concatenation advances each part |
| Game.FallMeaning | game.c:267-307 | a falling asteroid keeps its column and goes down a row; row 0 wraps to row 15 |
| Game.LandsMeaning | game.c:272 | an asteroid hits the base exactly from (base, 2) or (base +- 1, 1); one on row 0 never does |
| Game.Fallen | game.c:233-321 | with no landing every live asteroid falls one row, in place |
| Game.LivesZeroIff | game.c:253-266 | lives remaining is zero exactly when `counter` is 4 |
| Game.LivesCounted | game.c:253-303 | after any number of asteroid passes `counter` has risen by the number of landings, mod 2^32 |
| Game.QuietLives | game.c:253-267 | passes without a landing only report the lives: `temp` catches up with `counter` at the first of them and nothing else changes |
| Game.QuietPassDone | game.c:233-321 | a pass with no landing leaves every live asteroid fallen one row, the slots past them untouched, and the lives only reported |
| Game.PassFlag | game.c:229-303 | at the end of a pass the flag is up iff `counter` is 4 and the last asteroid did not land; the last one landed iff `temp` differs from `counter` |
| Game.FourthLossRaisesFlag | game.c:253-281 | losing the fourth life raises the flag as soon as the next asteroid of the pass does not land |
| Game.FifthLandingLosesGameOver | game.c:253-281 | once `counter` has passed 4, no pass raises the flag again (short of wrapping round) |
| Game.FifthLandingExample | game.c:253-281 | a pass of land, miss, land from three lives lost: the flag is up after the miss and down again after the fifth loss |
| Game.TopRowColumns | game.c:289-293 | a random column is masked to 4 bits, so the 256 column values reach a free top-row cell iff the 16 columns do |
| Game.CloseGap | game.c:513-516 | the slots after the hole shift down by one, in order |
| Game.ChooseStartCell | game.c:145-152 | the chosen cell is in the start area and holds no live asteroid |
| Game.Game.constructor | game.c:81-98 | the globals start at zero |
| Game.Game.AsteroidAt | game.c:450-461 | -1 iff no live asteroid is at (x, y), else the first index holding it |
| Game.Game.ProjectileAt | game.c:466-477 | -1 iff no live projectile is at (x, y), else the first index holding it |
| Game.Game.ChooseTopRowCell | game.c:376-382 | finds a free top-row cell in the given columns iff one exists |
| Game.Game.RemoveAsteroid | game.c:482-498 | an index out of range changes nothing; otherwise the last asteroid fills the hole and the count drops by 1 |
| Game.Game.RemoveProjectile | game.c:502-518 | an index out of range changes nothing; otherwise the later projectiles shift down in order and the count drops by 1 |
| Game.Game.InitialiseGame | game.c:130-160 | base at 3, no projectiles, 20 distinct asteroids in x 0..7 and y 3..15, all four life LEDs lit |
| Game.Game.PlaceStartAsteroid | game.c:141-156 | appends one start-area asteroid on a free cell, keeping the asteroids distinct |
| Game.Game.MoveBase | game.c:168-201 | left at 0 and right at 7 stay put, otherwise the base moves by one; returns 1 |
| Game.Game.FireProjectile | game.c:208-221 | fires iff fewer than 4 projectiles and none at (base, 2); firing appends that position, failing changes nothing |
| Game.Game.DestroyPair | game.c:344-384 | removes the projectile and the asteroid and adds 1 to the score; it appends a new asteroid on a free top-row cell in columns 0..7, or stalls exactly when those cells are all taken |
| Game.Game.ScanForCollisions | game.c:337-387 | each hit adds 1 to the score; no hit changes nothing; a live or stale asteroid at (x, y) is hit; it stalls only on a full top row |
| Game.Game.StepProjectile | game.c:331-425 | a projectile that hits nothing moves up a row or leaves the field, and the loop index moves past it |
| Game.Game.MoveOrRemove | game.c:393-425 | the slot's projectile is removed at row 15, else rewritten one row up |
| Game.Game.AdvanceProjectiles | game.c:324-429 | no projectile meets an asteroid exactly when the score is unchanged; then the projectiles become `Advanced` of the old ones and the asteroids are untouched; it stalls only on a full top row |
| Game.Game.ReportLives | game.c:253-266 | the lives become `Report` of the old ones: `temp` catches up with `counter`, and the game-over flag is raised when the lives reach zero |
| Game.Game.FallStep | game.c:234-318 | the lives are reported and then follow `LivesStep`; an asteroid either lands (count down 1, a life lost, a new distinct asteroid on the top row in its slot, or a stall on a full top row) or falls one row in place |
| Game.Game.LandOnBase | game.c:272-303 | a landing removes the asteroid, loses a life as `LoseLife` says and respawns it on a free top-row cell, or stalls on a full top row |
| Game.Game.CountLostLife | game.c:275-280 | the lives become `LoseLife` of the old ones: `counter` rises by 1 mod 2^32, `lifeLost(counter)` clears that LED and lowers the flag |
| Game.Game.RespawnInto | game.c:288-311 | stalls iff the top row is full; otherwise the slot gets a top-row cell distinct from every other live asteroid and nothing else changes |
| Game.Game.AdvanceFallingAsteroid | game.c:225-323 | records one landing flag per pass: each landing lowers the count and raises `counter` by one, the lives follow `LivesAfter`, some asteroid lands iff one is on the base, and with no landing every asteroid falls one row |
| Game.Game.FallPasses | game.c:233-321 | the loop runs one `FallStep` per live asteroid, counts the landings, and with no landing has handled every asteroid |
| Game.Game.IsGameOver | game.c:433-442 | returns 1 iff the flag was 1, then clears it and resets `counter` and `temp` |
| Project.SignedChar | project.c:121 | a received byte read as a signed `char` |
| Project.DecodeSerial | project.c:182-201 | at most one of character and escape code is produced; an escape code only from state 2 |
| Project.ReadInput | project.c:167-203 | a pushed button wins and the serial port is then not read; otherwise the received character is decoded |
| Project.EscapeOnlyAfterIntroducer | project.c:182-201 | every escape code is the character right after ESC and `[` |
| Project.ControlSequenceDecoded | project.c:182-196 | ESC `[` x yields escape code x and returns to state 0 |
| Project.PlainTextPassesThrough | project.c:196-201 | text without ESC passes through unchanged |
| Project.BrokenIntroducerPassesSecondChar | project.c:186-201 | ESC followed by anything but `[` drops the ESC and passes the next character through |
| Project.KeyBindings | project.c:205-221 | buttons 3/2/1/0, keys D/A/B/C and L, space, R map to left, fire, nothing and right |
| Project.ActedKeepsField | project.c:205-221 | an action keeps the base on 0..7 and at most 4 projectiles in flight; only firing adds one, just above the base |
| Project.MovesUndo | project.c:206-220 | away from the edges, a move left and a move right undo each other |
| Project.FireOnce | project.c:210-213 | firing twice adds one projectile at most, since the second finds the first on its cell |
| Project.Deadline | project.c:280 | the `uint32_t` deadline wraps modulo 2^32 |
| Project.DueIffElapsed | project.c:280 | without wrap-around a step is due iff the interval has elapsed |
| Project.DueAcrossWrap | project.c:298 | once the deadline wraps, a step is due at once |
| Project.FasterGameBounds | project.c:298-307 | `FasterGame` grows by 10 only when the score is above 10, snaps to 200 above 100, never decreases, and the asteroid interval never drops below 300 ms |
| Project.IterationAccounts | project.c:162-313 | over one iteration the score rises by the hits, `counter` by the landings, and the base ends where the input put it; a quiet iteration advances the projectiles and drops every asteroid one row; a game that stays paused moves nothing |
| Project.Session.constructor | project.c:119-123 | not in an escape sequence, not paused |
| Project.Session.NewGame | project.c:101-116 | the field is initialised and the score is 0 |
| Project.Session.StartPlay | project.c:146-160 | both timers start at the current time, `FasterGame` is 0, a pending game-over flag is consumed |
| Project.Session.Iterate | project.c:162-315 | runs iff the game is not over and not stalled; a running pass goes from the old state through `InputDone`, `ShotsDone` and the asteroid step to the new state; a finished one moves nothing |
| Project.Session.LoopBody | project.c:167-313 | the input, then the projectile step, then the asteroid step, all at the time read once |
| Project.Session.HandleInput | project.c:167-263 | the decoder state follows `ReadInput`, pause toggles on button 1, p or P, the base and projectiles take `Acted` unless paused, and nothing else changes |
| Project.Session.StepTimers | project.c:279-313 | each timer fires iff due and not paused and is then reset to now; the asteroid step is skipped after a stall |
| Project.Session.Act | project.c:205-221 | the base and projectiles become `Acted` of the old ones, and the asteroids do not change |
| Project.Session.StepProjectilesIfDue | project.c:280-288 | projectiles move iff 500 ms have passed and the game is not paused; a hit scores 1 each, no hit advances them all, nothing else changes |
| Project.Session.StepAsteroidsIfDue | project.c:298-313 | asteroids fall iff `500 - FasterGame` ms have passed and the game is not paused; then `FasterGame` is updated, the lives follow `LivesAfter`, and nothing else changes |
| Project.Session.DropAsteroids | project.c:302-312 | `FasterGame` from the score, then the fall, then the timer reset; the base, projectiles and score do not change |
| Project.Session.SpeedUp | project.c:302-307 | `FasterGame` takes `NextFasterGame` of the score and stays a multiple of 10 up to 100, or 200 |
| LedMatrix.Decode | ledmatrix.c:27-92 | a frame the board accepts has the length its command byte announces |
| LedMatrix.DecodeEncode | ledmatrix.c:27-92 | every frame the driver sends reads back as the command it encodes |
| LedMatrix.TwoFramesSplit | ledmatrix.c:27-92 | frames are self-delimiting: two frames in a row split after the announced length |
| LedMatrix.RowMajor | ledmatrix.c:27-34 | colour i of the stream is `data[i % 16][i / 16]` |
| LedMatrix.Spi.UpdateAllPixels | ledmatrix.c:27-34 | sends 0x00 and then the 128 colours, rows outer and columns inner: byte 1 + 16y + x is `data[x][y]` |
| LedMatrix.Spi.UpdatePixelAt | ledmatrix.c:36-44 | off the board nothing is sent; otherwise exactly [0x01, y*16 + x, colour] |
| LedMatrix.Spi.UpdateRowAt | ledmatrix.c:46-56 | y >= 8 sends nothing; otherwise 0x02, y and the 16 colours in order |
| LedMatrix.Spi.UpdateColumnAt | ledmatrix.c:58-68 | x >= 16 sends nothing; otherwise 0x03, x and the 8 colours in order |
| LedMatrix.Spi.ShiftDisplay | ledmatrix.c:70-88 | sends 0x04 and then 0x02, 0x01, 0x08 or 0x04 for left, right, up or down |
| LedMatrix.Spi.ClearScreen | ledmatrix.c:90-92 | sends 0x0F alone |
| LedMatrix.CopyMatrixColumn | ledmatrix.c:94-98 | the destination column equals the source, element by element |
| LedMatrix.CopyMatrixRow | ledmatrix.c:100-104 | the destination row equals the source, element by element |
| LedMatrix.SetMatrixColumnToColour | ledmatrix.c:106-110 | every entry of the column is the colour |
| LedMatrix.SetMatrixRowToColour | ledmatrix.c:112-116 | every entry of the row is the colour |
| Scrolling.Letter | scrolling_char_display.c:53-78 | every letter is 3 to 5 columns wide |
| Scrolling.Number | scrolling_char_display.c:81-90 | every digit is 3 or 4 columns wide |
| Scrolling.LettersEndMarked | scrolling_char_display.c:53-78 | in every letter only the last column has bit 0 set |
| Scrolling.NumbersEndMarked | scrolling_char_display.c:81-90 | in every digit only the last column has bit 0 set |
| Scrolling.FontFor | scrolling_char_display.c:196-208 | the columns selected for a character are empty or end-marked |
| Scrolling.FontSelection | scrolling_char_display.c:196-208 | both cases of a letter select the same columns, digits their own, anything else none |
| Scrolling.ColumnColours | scrolling_char_display.c:231-240 | row i (7..1) of the column has the colour iff bit i of the font byte is set; row 0 is blank |
| Scrolling.FillColumn | scrolling_char_display.c:230-240 | the shifting loop builds exactly `ColumnColours` |
| Scrolling.Fetch | scrolling_char_display.c:156-222 | only the idle state can flag "finished"; a non-blank column comes only from a pending font column |
| Scrolling.Step | scrolling_char_display.c:144-247 | the pointer invariant is kept; the call reports "done" iff nothing is pending and the countdown is at most 1; the countdown restarts on reaching a NUL |
| Scrolling.FontColumnsFollow | scrolling_char_display.c:158-175 | the columns of a character come out one per call, and then the font pointer is null |
| Scrolling.CharacterShown | scrolling_char_display.c:176-208 | each character shows as one blank column followed by its font columns |
| Scrolling.CountdownDrains | scrolling_char_display.c:209-246 | once idle, the countdown runs out one call at a time and only its last call reports "done" |
| Scrolling.MessageScrollsOff | scrolling_char_display.c:188-195 | after a NUL, 16 blank columns follow and only the 16th call returns 0 |
| Scrolling.ScrollingDisplay.constructor | scrolling_char_display.c:108-122 | red, nothing to show |
| Scrolling.ScrollingDisplay.SetText | scrolling_char_display.c:132-137 | records the colour and string and clears both pointers |
| Scrolling.ScrollingDisplay.FetchColumn | scrolling_char_display.c:156-222 | the pointer updates are those of `Fetch` |
| Scrolling.ScrollingDisplay.ShowColumn | scrolling_char_display.c:229-241 | sends a left shift and then the new column 15 |
| Scrolling.ScrollingDisplay.Scroll | scrolling_char_display.c:144-247 | the state and the result follow `Step`, and the two matrix frames are sent |

## Left out

- Terminal output (`printf_P`, `move_cursor`, the score and lives text) and terminalio.c: output only, with no effect on game state.
- LED matrix redraws in game.c (`redraw_*`), the `Right`/`left`/`right` terminal-art columns and the `animation` splatter: drawing only.
- `splash_screen`, `handle_game_over` and the `main` loop: sequencing of screens around the modelled game loop.
- Clearing the serial input buffer and the button queue in `new_game`: buffered I/O is not modelled.
- Button and serial input are parameters of `Session.Iterate`. The time it reads is the tick count, which the caller advances with `Timer0.Tick`.
- Interrupt concurrency: the timer interrupt is one atomic `Tick` between main-loop steps. `GetCurrentTime` models only its interrupt-flag save and restore, recorded in a ghost trace.
- `init_timer0`, `initialise_hardware`, `ledmatrix_setup` and the SPI transfer: hardware set-up. `spi_send_byte` is an append to `Spi.sent`.
- `random()`: an arbitrary choice among the cells its retry loop accepts. When none is free the C loop never ends, and the model sets `stalled` instead.
- `Score.ScoreKeeper.AddToScore`: its unwrapped running total `total` is ghost; only `score` exists in the program.
- `Timer0.Timer0.Tick`: the branch for a `displayScore` that is neither below 10 nor at least 10 is omitted, since no such value exists.
- `Project.Session.Iterate`: the phase snapshots, `shotsMoved`, `rocksMoved`, `hits`, `lost` and `landings` are ghost results that say what each phase did.
- `Game.Game.DestroyPair`: it states the new asteroid's cell and the counts, not the slot contents after the removals; those follow from `RemoveProjectile` and `RemoveAsteroid`.
- `Game.Game.AdvanceProjectiles`: the positions after a collision are stated only through the counts, the score and the stall, not element by element.
- `Game.Game.AdvanceFallingAsteroid`: after a landing the asteroid positions are stated through the count and the stall, not element by element; the lives are stated in full.
- `LedMatrix.Spi`: the bytes sent are a plain field, not a ghost one, so that the frames are checkable program data.
- `Scrolling.ScrollingDisplay`: a string handed to `SetText` is a value. Later changes to the caller's buffer, which the C pointer would see, are not modelled.
