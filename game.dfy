/**
 * The game field: the base, the projectiles in flight and the falling
 * asteroids, with the collision, scoring and life-loss rules.
 *
 * The C globals become the fields of one `Game` object; the two position
 * lists keep their fixed-size byte arrays, whose slots past the live count
 * still hold stale positions that the collision scan reads. Redraws of the
 * LED matrix are not modelled. Every `random()` retry loop is replaced by an
 * arbitrary choice among the cells the retry would accept; when there is
 * no such cell the C loop never ends, and the model records that in
 * `stalled` and stops.
 */
module Game {
  import opened Position
  import opened Score
  import opened Timer0

  const MAX_PROJECTILES: int := 4
  const MAX_ASTEROIDS: int := 20
  const MOVE_LEFT: int := 0
  const MOVE_RIGHT: int := 1
  /** `sizeof(asteroids)`: the bound of the collision scan, in bytes. */
  const ASTEROID_ARRAY_BYTES: int := 20

  // ---------------------------------------------------------------------
  // Specification functions

  /** One row up in the same column. */
  function Up(p: byte): (q: byte)
    ensures GetX(q) == GetX(p)
    ensures GetY(p) < 15 ==> GetY(q) == GetY(p) + 1
  {
    GamePosition(GetX(p), GetY(p) + 1)
  }

  /**
   * The projectile list after an advance step in which nothing collides:
   * those on the top row are dropped, the others move up, order kept.
   */
  function Advanced(s: seq<byte>): seq<byte>
  {
    if s == [] then [] else Advanced(s[..|s| - 1]) + Moved(s[|s| - 1])
  }

  /** The advance of the projectile at (x, y), in the terms the C loop uses. */
  lemma MovedAt(x: int, y: int)
    requires 0 <= x < 16 && 0 <= y < 16
    ensures Moved(GamePosition(x, y)) == if y == 15 then [] else [GamePosition(x, y + 1)]
  {
    var p := GamePosition(x, y);
    assert GetX(p) == x && GetY(p) == y;
  }

  /** One projectile after an advance: gone from the top row, else one row up. */
  function Moved(p: byte): (m: seq<byte>)
    ensures GetY(p) == 15 <==> m == []
    ensures |m| <= 1
  {
    if GetY(p) == 15 then [] else [Up(p)]
  }

  /**
   * Every projectile left after an advance is the one-row-up image of a
   * projectile that was below the top row, every projectile below the top
   * row survives as its one-row-up image, and only the top row is lost.
   */
  lemma {:induction false} AdvancedMeaning(s: seq<byte>)
    ensures |Advanced(s)| == |s| - CountTopRow(s)
    ensures forall q :: q in Advanced(s) ==> exists p :: p in s && GetY(p) < 15 && q == Up(p)
    ensures forall p :: p in s && GetY(p) < 15 ==> Up(p) in Advanced(s)
  {
    if s != [] {
      var init, last := s[..|s| - 1], s[|s| - 1];
      AdvancedMeaning(init);
      assert s == init + [last];
      forall q | q in Advanced(s)
        ensures exists p :: p in s && GetY(p) < 15 && q == Up(p)
      {
        if q in Advanced(init) {
          var p :| p in init && GetY(p) < 15 && q == Up(p);
          assert p in s;
        } else {
          assert q == Up(last) && GetY(last) < 15 && last in s;
        }
      }
      forall p | p in s && GetY(p) < 15
        ensures Up(p) in Advanced(s)
      {
        if p != last {
          assert p in init;
        }
      }
    }
  }

  /**
   * The advance works projectile by projectile, so it keeps their order:
   * advancing two lists one after the other is advancing the joined list.
   */
  lemma {:induction false} AdvancedConcat(a: seq<byte>, b: seq<byte>)
    ensures Advanced(a + b) == Advanced(a) + Advanced(b)
  {
    if b == [] {
      assert a + b == a;
    } else {
      var init, last := b[..|b| - 1], b[|b| - 1];
      assert b == init + [last];
      calc {
        Advanced(a + b);
        { assert a + b == (a + init) + [last]; }
        Advanced((a + init) + [last]);
        { AdvancedSnoc(a + init, last); }
        Advanced(a + init) + Moved(last);
        { AdvancedConcat(a, init); }
        Advanced(a) + Advanced(init) + Moved(last);
        { AdvancedSnoc(init, last); }
        Advanced(a) + Advanced(b);
      }
    }
  }

  function CountTopRow(s: seq<byte>): (n: nat)
    ensures n <= |s|
  {
    if s == [] then 0
    else CountTopRow(s[..|s| - 1]) + (if GetY(s[|s| - 1]) == 15 then 1 else 0)
  }

  /** `pos_y - 1` stored in a uint8_t: row 0 wraps round to 255. */
  function LoweredRow(p: byte): byte
  {
    (GetY(p) + 255) % 256
  }

  /** One row down in the same column; the wrapped row 255 masks to row 15. */
  function Fall(p: byte): byte
  {
    GamePosition(GetX(p), LoweredRow(p))
  }

  lemma FallMeaning(p: byte)
    ensures GetX(Fall(p)) == GetX(p)
    ensures GetY(p) > 0 ==> GetY(Fall(p)) == GetY(p) - 1
    ensures GetY(p) == 0 ==> GetY(Fall(p)) == 15
  {
    if GetY(p) > 0 {
      assert LoweredRow(p) == GetY(p) - 1;
    } else {
      assert LoweredRow(p) == 255;
    }
  }

  /**
   * The defense-line test of the falling step, on the lowered uint8_t row.
   * Its first disjunct compares a uint8_t with -1 and is never true.
   */
  predicate Lands(p: byte, base: int)
  {
    var x, y := GetX(p), LoweredRow(p);
    y == -1 || (x == base && y == 1) || (x == base + 1 && y == 0) || (x == base - 1 && y == 0)
  }

  /** An asteroid reaches the defense line exactly when it lands on the base's
   * top cell (row 1 above the centre) or on a row-0 cell beside the centre;
   * one leaving row 0 never does. */
  lemma LandsMeaning(p: byte, base: int)
    ensures Lands(p, base) <==>
      (GetY(p) == 2 && GetX(p) == base) ||
      (GetY(p) == 1 && (GetX(p) == base + 1 || GetX(p) == base - 1))
    ensures GetY(p) == 0 ==> !Lands(p, base)
  {
  }

  predicate NoLanding(s: seq<byte>, base: int)
  {
    forall i :: 0 <= i < |s| ==> !Lands(s[i], base)
  }

  /** Every asteroid of the list one row down. */
  function Fallen(s: seq<byte>): (r: seq<byte>)
    ensures |r| == |s| && forall i :: 0 <= i < |s| ==> r[i] == Fall(s[i])
  {
    seq(|s|, i requires 0 <= i < |s| => Fall(s[i]))
  }

  /**
   * While no asteroid has landed: the first k slots hold the fallen images of
   * the first k original asteroids, none of which landed, and the later slots
   * are as they were.
   */
  ghost predicate FallenSoFar(rocks: seq<byte>, orig: seq<byte>, now: seq<byte>, k: int, base: int)
  {
    0 <= k <= |rocks| <= |orig| == |now| && rocks == orig[..|rocks|] &&
    now[..k] == Fallen(rocks[..k]) && now[k..] == orig[k..] &&
    NoLanding(rocks[..k], base)
  }

  /** One quiet pass of the asteroid loop extends the fallen prefix by one. */
  lemma QuietFallStep(rocks: seq<byte>, orig: seq<byte>, before: seq<byte>, after: seq<byte>, k: int, base: int)
    requires FallenSoFar(rocks, orig, before, k, base) && k < |rocks|
    requires !Lands(before[k], base)
    requires after == before[k := Fall(before[k])]
    ensures FallenSoFar(rocks, orig, after, k + 1, base)
  {
    assert before[k] == rocks[k];
    assert rocks[..k + 1] == rocks[..k] + [rocks[k]];
    assert after[..k + 1] == before[..k] + [Fall(rocks[k])];
    assert after[k + 1..] == before[k + 1..];
  }

  /** 4 - counter as a uint32_t is zero exactly when four lives are lost. */
  lemma LivesZeroIff(counter: nat)
    requires counter < UINT32_MODULUS
    ensures (4 - counter) % UINT32_MODULUS == 0 <==> counter == 4
  {
    if counter > 4 {
      assert (4 - counter) % UINT32_MODULUS == 4 - counter + UINT32_MODULUS;
    }
  }

  /**
   * The lives bookkeeping the asteroid step touches: the life counter, the
   * counter value last reported, the game-over flag xk and PORTC, whose
   * bits 1 to 4 are the life LEDs.
   */
  datatype Lives = Lives(counter: nat, temp: nat, xk: int, portC: bv8)

  /** The lives report at the head of a pass: a changed counter is
   * remembered, and with none of the four lives left xk is raised. */
  function Report(l: Lives): Lives
  {
    if l.counter != l.temp then l.(temp := l.counter, xk := if l.counter == 4 then 1 else l.xk)
    else l
  }

  /** A landing: the counter goes up as a uint32_t, lifeLost turns off that
   * life's LED, and lifeLost always leaves xk at 0. */
  function LoseLife(l: Lives): Lives
  {
    var c := (l.counter + 1) % UINT32_MODULUS;
    l.(counter := c, portC := l.portC & !LifeLedMask(AsInt16(c)), xk := 0)
  }

  /** The lives after one pass of the asteroid loop, given whether that asteroid landed. */
  function LivesStep(l: Lives, landed: bool): Lives
  {
    if landed then LoseLife(Report(l)) else Report(l)
  }

  /** The lives after one asteroid pass per entry of `landings`, in order. */
  function LivesAfter(l: Lives, landings: seq<bool>): Lives
  {
    if landings == [] then l
    else LivesStep(LivesAfter(l, landings[..|landings| - 1]), landings[|landings| - 1])
  }

  function CountTrue(s: seq<bool>): (n: nat)
    ensures n <= |s|
  {
    if s == [] then 0 else CountTrue(s[..|s| - 1]) + (if s[|s| - 1] then 1 else 0)
  }

  lemma LivesAfterSnoc(l: Lives, landings: seq<bool>, b: bool)
    ensures LivesAfter(l, landings + [b]) == LivesStep(LivesAfter(l, landings), b)
    ensures CountTrue(landings + [b]) == CountTrue(landings) + (if b then 1 else 0)
  {
    assert (landings + [b])[..|landings|] == landings;
  }

  lemma {:induction false} NoneCounted(s: seq<bool>)
    requires CountTrue(s) == 0
    ensures forall i :: 0 <= i < |s| ==> !s[i]
  {
    if s != [] {
      NoneCounted(s[..|s| - 1]);
      assert forall i :: 0 <= i < |s| - 1 ==> s[i] == s[..|s| - 1][i];
    }
  }

  /** Every landing costs exactly one life on the uint32_t counter. */
  lemma {:induction false} LivesCounted(l: Lives, landings: seq<bool>)
    requires l.counter < UINT32_MODULUS
    ensures LivesAfter(l, landings).counter == (l.counter + CountTrue(landings)) % UINT32_MODULUS
  {
    if landings != [] {
      var init := landings[..|landings| - 1];
      LivesCounted(l, init);
      assert init + [landings[|landings| - 1]] == landings;
      LivesAfterSnoc(l, init, landings[|landings| - 1]);
      AddAfterWrap(l.counter + CountTrue(init), 1);
    }
  }

  /**
   * A pass without landings reports the lives once: the counter and the LEDs
   * stay, and the flag is raised if four lives were already lost unreported.
   */
  lemma {:induction false} QuietLives(l: Lives, landings: seq<bool>)
    requires forall i :: 0 <= i < |landings| ==> !landings[i]
    ensures LivesAfter(l, landings) == if landings == [] then l else Report(l)
  {
    if |landings| > 1 {
      QuietLives(l, landings[..|landings| - 1]);
    }
  }

  /**
   * A pass of advance_falling_astroid in which no asteroid landed: every
   * asteroid fell one row, the slots past them are untouched, and the lives
   * were only reported (once there was an asteroid), never lost.
   */
  lemma QuietPassDone(rocks: seq<byte>, orig: seq<byte>, now: seq<byte>, base: int,
                      start: Lives, landings: seq<bool>)
    requires FallenSoFar(rocks, orig, now, |rocks|, base)
    requires CountTrue(landings) == 0 && |landings| == |rocks|
    ensures now[..|rocks|] == Fallen(rocks) && now[|rocks|..] == orig[|rocks|..]
    ensures NoLanding(rocks, base)
    ensures LivesAfter(start, landings) == if rocks == [] then start else Report(start)
  {
    assert rocks[..|rocks|] == rocks;
    NoneCounted(landings);
    QuietLives(start, landings);
  }

  /**
   * At the end of a pass of advance_falling_astroid, which starts with temp
   * at 0 and the flag down, xk is 1 exactly when four lives have been lost
   * and the last asteroid handled did not land: the report of the asteroid
   * after a landing raises the flag, and every landing lowers it again.
   */
  lemma {:induction false} PassFlag(l: Lives, landings: seq<bool>)
    requires l.temp == 0 && l.xk != 1 && l.counter < UINT32_MODULUS && landings != []
    ensures var r := LivesAfter(l, landings);
            r.counter < UINT32_MODULUS &&
            (r.xk == 1 <==> r.counter == 4 && !landings[|landings| - 1]) &&
            (landings[|landings| - 1] <==> r.temp != r.counter)
  {
    var init, b := landings[..|landings| - 1], landings[|landings| - 1];
    assert init + [b] == landings;
    LivesAfterSnoc(l, init, b);
    if init != [] {
      PassFlag(l, init);
    }
  }

  /**
   * The fourth life lost, and the next asteroid of the same pass does not
   * land: its report raises the game-over flag.
   */
  lemma FourthLossRaisesFlag(l: Lives, landings: seq<bool>)
    requires l.temp == 0 && l.xk != 1 && l.counter < UINT32_MODULUS
    requires LivesAfter(l, landings + [true]).counter == 4
    ensures LivesAfter(l, landings + [true, false]).xk == 1
  {
    assert landings + [true, false] == (landings + [true]) + [false];
    PassFlag(l, landings + [true]);
    PassFlag(l, landings + [true, false]);
  }

  /**
   * As written, a landing after the fourth loses the flag for good: with the
   * counter past 4 (and short of wrapping round) no later pass raises xk
   * again, so the game never ends.
   */
  lemma FifthLandingLosesGameOver(l: Lives, landings: seq<bool>)
    requires l.temp == 0 && l.xk != 1 && 4 < l.counter && l.counter + |landings| < UINT32_MODULUS
    ensures LivesAfter(l, landings).xk != 1
  {
    if landings != [] {
      PassFlag(l, landings);
      LivesCounted(l, landings);
    }
  }

  /**
   * A pass with three lives lost: the first asteroid lands (the fourth loss,
   * and lifeLost(4) lowers the flag it raises), the second does not (its
   * report raises the flag), the third lands (lifeLost(5) lowers it again).
   */
  lemma FifthLandingExample()
    ensures LivesAfter(Lives(3, 0, 0, 0x1E), [true, false]) == Lives(4, 4, 1, 0x16)
    ensures LivesAfter(Lives(3, 0, 0, 0x1E), [true, false, true]) == Lives(5, 4, 0, 0x16)
  {
    assert [true, false, true][..2] == [true, false];
    assert [true, false][..1] == [true];
    assert [true][..0] == [];
  }

  /** Every cell of the top row in columns 0 .. columns-1 holds an asteroid. */
  predicate TopRowFull(rocks: seq<byte>, columns: int)
  {
    forall c :: 0 <= c < columns ==> GamePosition(c, 15) in rocks
  }

  /** A column value is masked to 4 bits, so 256 random columns reach the same cells as 16. */
  lemma TopRowColumns(rocks: seq<byte>)
    ensures TopRowFull(rocks, 256) <==> TopRowFull(rocks, 16)
  {
    if TopRowFull(rocks, 16) {
      forall c | 0 <= c < 256
        ensures GamePosition(c, 15) in rocks
      {
        assert GamePosition(c, 15) == GamePosition(c % 16, FIELD_HEIGHT - 1);
      }
    }
  }

  /** No live projectile shares a byte with any of the asteroid slots. */
  predicate NoHit(shots: seq<byte>, rocks: seq<byte>)
  {
    forall j, i :: 0 <= j < |shots| && 0 <= i < |rocks| ==> shots[j] != rocks[i]
  }

  lemma AdvancedSnoc(s: seq<byte>, p: byte)
    ensures Advanced(s + [p]) == Advanced(s) + Moved(p)
  {
    assert (s + [p])[..|s|] == s;
  }

  lemma NoHitSnoc(shots: seq<byte>, p: byte, rocks: seq<byte>)
    requires NoHit(shots, rocks) && p !in rocks
    ensures NoHit(shots + [p], rocks)
  {
  }

  /**
   * One quiet pass of the projectile loop extends the processed prefix by the
   * advanced image of the next original projectile.
   */
  lemma QuietStep(shots: seq<byte>, consumed: nat, rocks: seq<byte>,
                  before: seq<byte>, slot: int, after: seq<byte>, next: int)
    requires 0 <= slot < |before| && consumed <= |shots|
    requires before[..slot] == Advanced(shots[..consumed])
    requires before[slot..] == shots[consumed..]
    requires NoHit(shots[..consumed], rocks) && before[slot] !in rocks
    requires after == before[..slot] + Moved(before[slot]) + before[slot + 1..]
    requires next == slot + |Moved(before[slot])|
    ensures consumed < |shots| && next <= |after|
    ensures after[..next] == Advanced(shots[..consumed + 1])
    ensures after[next..] == shots[consumed + 1..]
    ensures NoHit(shots[..consumed + 1], rocks)
  {
    var p := before[slot];
    assert p == shots[consumed];
    assert shots[..consumed + 1] == shots[..consumed] + [p];
    AdvancedSnoc(shots[..consumed], p);
    NoHitSnoc(shots[..consumed], p, rocks);
    SplitThree(before[..slot], Moved(p), before[slot + 1..]);
    assert before[slot + 1..] == before[slot..][1..];
  }

  lemma SplitThree(a: seq<byte>, b: seq<byte>, c: seq<byte>)
    ensures (a + b + c)[..|a| + |b|] == a + b
    ensures (a + b + c)[|a| + |b|..] == c
  {
  }

  lemma HitBreaksNoHit(shots: seq<byte>, k: int, rocks: seq<byte>)
    requires 0 <= k < |shots| && shots[k] in rocks
    ensures !NoHit(shots, rocks)
  {
    var i :| 0 <= i < |rocks| && rocks[i] == shots[k];
  }

  /**
   * The loop of remove_projectile: entries index+1 .. n-1 move down one slot;
   * slot n-1 keeps its old value.
   */
  method CloseGap(a: array<byte>, index: int, n: int)
    requires 0 <= index < n <= a.Length
    modifies a
    ensures a[..] == old(a[..index] + a[index + 1..n] + a[n - 1..])
  {
    var i := index + 1;
    while i < n
      invariant index + 1 <= i <= n
      invariant forall j :: 0 <= j < index ==> a[j] == old(a[j])
      invariant forall j :: index <= j < i - 1 ==> a[j] == old(a[j + 1])
      invariant forall j :: i - 1 <= j < a.Length ==> a[j] == old(a[j])
    {
      a[i - 1] := a[i];
      i := i + 1;
    }
  }

  /**
   * The retry loop of initialise_game: x = random() % 8, y = 3 + random() % 13
   * until asteroid_at(x, y) reports the cell free of the live asteroids. With
   * fewer than 104 of them such a cell exists, so the loop ends; which cell
   * random() lands on is left open.
   */
  method ChooseStartCell(live: seq<byte>) returns (cell: byte)
    requires |live| < 104
    ensures InStartArea(cell) && cell !in live
  {
    ghost var freeX, freeY := FreeStartCellExists(live);
    ghost var free := GamePosition(freeX, freeY);
    assert InStartArea(free) && free !in live;
    cell :| InStartArea(cell) && cell !in live;
  }

  class Game {
    var basePosition: int
    var numProjectiles: int
    const projectiles: array<byte>
    var numAsteroids: int
    const asteroids: array<byte>
    /** Lives lost so far (a uint32_t). */
    var counter: nat
    /** The counter value the lives display last showed (a uint32_t). */
    var temp: nat
    /** A placement retry of the C code would spin for ever from here on. */
    var stalled: bool
    const score: ScoreKeeper
    const timer: Timer0

    ghost function Repr(): set<object>
      reads this
    {
      {this, projectiles, asteroids, score, timer}
    }

    ghost predicate Valid()
      reads Repr()
    {
      projectiles.Length == MAX_PROJECTILES && asteroids.Length == MAX_ASTEROIDS &&
      projectiles != asteroids &&
      0 <= basePosition <= 7 &&
      0 <= numProjectiles <= MAX_PROJECTILES &&
      0 <= numAsteroids <= MAX_ASTEROIDS &&
      counter < UINT32_MODULUS && temp < UINT32_MODULUS &&
      score.Valid() && timer.Valid() &&
      (forall j :: 0 <= j < numProjectiles ==> OnField(projectiles[j]))
    }

    /** The live asteroids. */
    ghost function Asteroids(): seq<byte>
      reads this, asteroids
      requires 0 <= numAsteroids <= asteroids.Length
    {
      asteroids[..numAsteroids]
    }

    /** The lives bookkeeping, as the asteroid step sees it. */
    ghost function LivesOf(): Lives
      reads this, timer
    {
      Lives(counter, temp, timer.xk, timer.portC)
    }

    /** The live projectiles. */
    ghost function Projectiles(): seq<byte>
      reads this, projectiles
      requires 0 <= numProjectiles <= projectiles.Length
    {
      projectiles[..numProjectiles]
    }

    /** The globals as a static program starts: all zero. */
    constructor (s: ScoreKeeper, t: Timer0)
      requires s.Valid() && t.Valid()
      ensures Valid() && fresh(projectiles) && fresh(asteroids)
      ensures score == s && timer == t
      ensures basePosition == 0 && numProjectiles == 0 && numAsteroids == 0
      ensures counter == 0 && temp == 0 && !stalled
    {
      basePosition, numProjectiles, numAsteroids := 0, 0, 0;
      projectiles := new byte[MAX_PROJECTILES](_ => 0);
      asteroids := new byte[MAX_ASTEROIDS](_ => 0);
      counter, temp := 0, 0;
      stalled := false;
      score, timer := s, t;
    }

    // -------------------------------------------------------------------
    // Queries

    /** asteroid_at: the first live asteroid on the cell, or -1. */
    method AsteroidAt(x: byte, y: byte) returns (index: int)
      requires Valid()
      ensures index == -1 <==> GamePosition(x, y) !in Asteroids()
      ensures index != -1 ==>
        0 <= index < numAsteroids && asteroids[index] == GamePosition(x, y) &&
        GamePosition(x, y) !in asteroids[..index]
    {
      var positionToCheck := GamePosition(x, y);
      var i := 0;
      while i < numAsteroids
        invariant 0 <= i <= numAsteroids
        invariant positionToCheck !in asteroids[..i]
      {
        if asteroids[i] == positionToCheck {
          return i;
        }
        i := i + 1;
      }
      return -1;
    }

    /** projectile_at: the first live projectile on the cell, or -1. */
    method ProjectileAt(x: byte, y: byte) returns (index: int)
      requires Valid()
      ensures index == -1 <==> GamePosition(x, y) !in Projectiles()
      ensures index != -1 ==>
        0 <= index < numProjectiles && projectiles[index] == GamePosition(x, y) &&
        GamePosition(x, y) !in projectiles[..index]
    {
      var positionToCheck := GamePosition(x, y);
      var i := 0;
      while i < numProjectiles
        invariant 0 <= i <= numProjectiles
        invariant positionToCheck !in projectiles[..i]
      {
        if projectiles[i] == positionToCheck {
          return i;
        }
        i := i + 1;
      }
      return -1;
    }

    /**
     * The do-while placement on the top row: `columns` random column values
     * are possible (8 for `random() % FIELD_WIDTH`, 256 for `(uint8_t)random()`),
     * and the loop ends on the first one `asteroid_at` reports free.
     * `found` is false when no value would ever be accepted.
     */
    method ChooseTopRowCell(columns: int) returns (found: bool, pos: byte)
      requires Valid() && 0 < columns <= 256
      ensures found <==> exists r :: 0 <= r < columns && GamePosition(r, 15) !in Asteroids()
      ensures found ==> pos !in Asteroids() && GetY(pos) == 15
      ensures found ==> exists r :: 0 <= r < columns && pos == GamePosition(r, 15)
      ensures found && columns <= 16 ==> GetX(pos) < columns
    {
      var live := asteroids[..numAsteroids];
      found := exists r :: 0 <= r < columns && GamePosition(r, 15) !in live;
      if found {
        var r :| 0 <= r < columns && GamePosition(r, 15) !in live;
        pos := GamePosition(r, 15);
      } else {
        pos := INVALID_POSITION;
      }
    }

    // -------------------------------------------------------------------
    // Removal

    /** remove_asteroid: move the last live entry into the hole. */
    method RemoveAsteroid(index: int)
      requires Valid()
      modifies this`numAsteroids, asteroids
      ensures Valid()
      ensures !(0 <= index < old(numAsteroids)) ==>
        numAsteroids == old(numAsteroids) && asteroids[..] == old(asteroids[..])
      ensures 0 <= index < old(numAsteroids) ==>
        numAsteroids == old(numAsteroids) - 1 &&
        asteroids[..] == old(asteroids[..][index := asteroids[numAsteroids - 1]])
    {
      if index < 0 || index >= numAsteroids {
        return;
      }
      if index < numAsteroids - 1 {
        asteroids[index] := asteroids[numAsteroids - 1];
      }
      numAsteroids := numAsteroids - 1;
    }

    /** remove_projectile: shift the later entries down one slot, keeping their order. */
    method RemoveProjectile(index: int)
      requires Valid()
      modifies this`numProjectiles, projectiles
      ensures Valid()
      ensures !(0 <= index < old(numProjectiles)) ==>
        numProjectiles == old(numProjectiles) && projectiles[..] == old(projectiles[..])
      ensures 0 <= index < old(numProjectiles) ==>
        numProjectiles == old(numProjectiles) - 1 &&
        projectiles[..] == old(projectiles[..index] + projectiles[index + 1..numProjectiles]
                                + projectiles[numProjectiles - 1..])
      ensures 0 <= index < old(numProjectiles) ==>
        Projectiles() == old(Projectiles()[..index] + Projectiles()[index + 1..])
    {
      if index < 0 || index >= numProjectiles {
        return;
      }
      ghost var was := projectiles[..];
      ghost var n := numProjectiles;
      CloseGap(projectiles, index, numProjectiles);
      numProjectiles := numProjectiles - 1;
      assert Projectiles() == was[..n][..index] + was[..n][index + 1..];
    }

    // -------------------------------------------------------------------
    // Player operations

    /**
     * initialise_game: base in the centre, no projectiles, twenty asteroids on
     * distinct random cells above the lowest three rows, all four life LEDs on.
     */
    method InitialiseGame()
      requires Valid()
      modifies this`basePosition, this`numProjectiles, this`numAsteroids, asteroids, timer`portC
      ensures Valid()
      ensures basePosition == 3 && numProjectiles == 0 && numAsteroids == MAX_ASTEROIDS
      ensures Distinct(Asteroids())
      ensures forall i :: 0 <= i < numAsteroids ==> InStartArea(asteroids[i])
      ensures timer.portC == LIFE_LEDS
    {
      timer.portC := LIFE_LEDS;
      basePosition := 3;
      numProjectiles := 0;
      numAsteroids := 0;
      var i := 0;
      while i < MAX_ASTEROIDS
        invariant Valid() && numProjectiles == 0
        invariant 0 <= i <= MAX_ASTEROIDS && numAsteroids == i
        invariant Distinct(Asteroids())
        invariant forall k :: 0 <= k < i ==> InStartArea(asteroids[k])
        modifies this`numAsteroids, asteroids
      {
        PlaceStartAsteroid();
        i := i + 1;
      }
    }

    /**
     * One pass of the placement loop of initialise_game: a free start cell
     * is chosen and stored as the next asteroid.
     */
    method PlaceStartAsteroid()
      requires Valid() && numAsteroids < MAX_ASTEROIDS
      modifies this`numAsteroids, asteroids
      ensures Valid()
      ensures numAsteroids == old(numAsteroids) + 1
      ensures asteroids[..numAsteroids - 1] == old(asteroids[..numAsteroids])
      ensures InStartArea(asteroids[numAsteroids - 1])
      ensures asteroids[numAsteroids - 1] !in old(Asteroids())
      ensures Distinct(old(Asteroids())) ==> Distinct(Asteroids())
    {
      var cell := ChooseStartCell(asteroids[..numAsteroids]);
      ghost var live := Asteroids();
      ghost var was := asteroids[..];
      asteroids[numAsteroids] := cell;
      numAsteroids := numAsteroids + 1;
      assert asteroids[..] == was[numAsteroids - 1 := cell];
      assert Asteroids() == live + [cell];
      if Distinct(live) {
        DistinctSnoc(live, cell);
      }
    }

    /**
     * move_base: one column left or right, never past column 0 or 7. Any
     * direction other than MOVE_LEFT moves right. The result is always 1.
     */
    method MoveBase(direction: int) returns (moved: int)
      requires Valid()
      modifies this`basePosition
      ensures Valid()
      ensures moved == 1
      ensures direction == MOVE_LEFT ==>
        basePosition == if old(basePosition) > 0 then old(basePosition) - 1 else old(basePosition)
      ensures direction != MOVE_LEFT ==>
        basePosition == if old(basePosition) < 7 then old(basePosition) + 1 else old(basePosition)
    {
      if direction == MOVE_LEFT {
        if basePosition > 0 {
          basePosition := basePosition - 1;
        }
      } else {
        if basePosition < 7 {
          basePosition := basePosition + 1;
        }
      }
      return 1;
    }

    /**
     * fire_projectile: a new projectile at (basePosition, 2), if fewer than
     * four are in flight and none is on that cell; otherwise nothing changes.
     */
    method FireProjectile() returns (fired: int)
      requires Valid()
      modifies this`numProjectiles, projectiles
      ensures Valid()
      ensures fired == 0 || fired == 1
      ensures fired == 1 <==>
        old(numProjectiles) < MAX_PROJECTILES &&
        GamePosition(basePosition, 2) !in old(Projectiles())
      ensures fired == 1 ==>
        Projectiles() == old(Projectiles()) + [GamePosition(basePosition, 2)]
      ensures fired == 0 ==>
        numProjectiles == old(numProjectiles) && projectiles[..] == old(projectiles[..])
    {
      var free := false;
      if numProjectiles < MAX_PROJECTILES {
        var at := ProjectileAt(basePosition, 2);
        free := at == -1;
      }
      if free {
        var newProjectileNumber := numProjectiles;
        numProjectiles := numProjectiles + 1;
        projectiles[newProjectileNumber] := GamePosition(basePosition, 2);
        assert Projectiles() == old(Projectiles()) + [GamePosition(basePosition, 2)];
        return 1;
      } else {
        return 0;
      }
    }

    // -------------------------------------------------------------------
    // The projectile step

    /**
     * The body of one hit in advance_projectiles: remove the projectile in
     * slot `projectileNumber` and asteroid `i` (each only if its index is
     * live), score 1, and append a replacement asteroid at the top row in a
     * column 0..7 on a cell no live asteroid occupies.
     */
    method DestroyPair(projectileNumber: int, i: int)
      requires Valid() && !stalled
      requires 0 <= i < MAX_ASTEROIDS
      modifies this`numProjectiles, this`numAsteroids, this`stalled, projectiles, asteroids, score
      ensures Valid()
      ensures numProjectiles == old(numProjectiles) - (if 0 <= projectileNumber < old(numProjectiles) then 1 else 0)
      ensures score.total == old(score.total) + 1
      ensures !stalled ==>
        numAsteroids == old(numAsteroids) + (if i < old(numAsteroids) then 0 else 1) &&
        GetY(asteroids[numAsteroids - 1]) == 15 && GetX(asteroids[numAsteroids - 1]) < 8 &&
        asteroids[numAsteroids - 1] !in asteroids[..numAsteroids - 1] &&
        !TopRowFull(asteroids[..numAsteroids - 1], FIELD_WIDTH)
      ensures stalled ==>
        numAsteroids == old(numAsteroids) - (if i < old(numAsteroids) then 1 else 0) &&
        TopRowFull(Asteroids(), FIELD_WIDTH)
    {
      RemoveProjectile(projectileNumber);
      RemoveAsteroid(i);
      score.AddToScore(1);
      ghost var live := Asteroids();
      var found, pos := ChooseTopRowCell(FIELD_WIDTH);
      if !found {
        stalled := true;
        return;
      }
      asteroids[numAsteroids] := pos;
      numAsteroids := numAsteroids + 1;
      assert asteroids[..numAsteroids - 1] == live;
    }

    /**
     * The collision scan of advance_projectiles for the projectile read from
     * slot `projectileNumber` at (x, y). It runs over all twenty asteroid
     * slots, stale ones included, and keeps comparing with the same x and y
     * after a hit. Each hit removes the projectile now in that slot, removes
     * asteroid i, adds 1 to the score and appends a new asteroid on a free
     * cell of the top row in columns 0..7.
     */
    method ScanForCollisions(projectileNumber: int, x: byte, y: byte) returns (ghost hits: nat)
      requires Valid() && !stalled
      requires 0 <= projectileNumber < MAX_PROJECTILES
      modifies this`numProjectiles, this`numAsteroids, this`stalled, projectiles, asteroids, score
      ensures Valid()
      ensures numProjectiles <= old(numProjectiles)
      ensures score.total == old(score.total) + hits
      ensures GamePosition(x, y) !in old(asteroids[..]) ==> hits == 0 && !stalled
      ensures x < 16 && y < 16 && GamePosition(x, y) in old(asteroids[..]) ==> hits > 0
      ensures hits == 0 ==>
        !stalled && numProjectiles == old(numProjectiles) && numAsteroids == old(numAsteroids) &&
        projectiles[..] == old(projectiles[..]) && asteroids[..] == old(asteroids[..])
      ensures stalled ==> TopRowFull(Asteroids(), FIELD_WIDTH)
    {
      hits := 0;
      var i := 0;
      while i < ASTEROID_ARRAY_BYTES
        invariant 0 <= i <= ASTEROID_ARRAY_BYTES
        invariant Valid() && !stalled
        invariant numProjectiles <= old(numProjectiles)
        invariant score.total == old(score.total) + hits
        invariant GamePosition(x, y) !in old(asteroids[..]) ==> hits == 0
        invariant hits == 0 && x < 16 && y < 16 ==> GamePosition(x, y) !in old(asteroids[..])[..i]
        invariant hits == 0 ==>
          numProjectiles == old(numProjectiles) && numAsteroids == old(numAsteroids) &&
          projectiles[..] == old(projectiles[..]) && asteroids[..] == old(asteroids[..])
      {
        var xA := GetX(asteroids[i]);
        var yA := GetY(asteroids[i]);
        SameCellIff(GamePosition(x, y), asteroids[i]);
        if x == xA && y == yA {
          assert hits == 0 ==> asteroids[i] == old(asteroids[..])[i];
          DestroyPair(projectileNumber, i);
          hits := hits + 1;
          if stalled {
            return;
          }
        }
        i := i + 1;
      }
    }

    /**
     * One pass of the advance_projectiles loop body for slot `projectileNumber`:
     * the collision scan, then removal of the projectile on the top row or its
     * move one row up. `next` is the slot the loop goes on with.
     */
    method StepProjectile(projectileNumber: int) returns (next: int, ghost hits: nat)
      requires Valid() && !stalled
      requires 0 <= projectileNumber < numProjectiles
      modifies this`numProjectiles, this`numAsteroids, this`stalled, projectiles, asteroids, score
      ensures Valid()
      ensures numProjectiles <= old(numProjectiles)
      ensures projectileNumber <= next <= projectileNumber + 1
      ensures !stalled && next < numProjectiles ==> numProjectiles - next < old(numProjectiles) - projectileNumber
      ensures score.total == old(score.total) + hits
      ensures hits == 0 <==> old(projectiles[projectileNumber]) !in old(asteroids[..])
      ensures hits == 0 ==>
        !stalled && numAsteroids == old(numAsteroids) && asteroids[..] == old(asteroids[..]) &&
        Projectiles() == old(Projectiles()[..projectileNumber]) + Moved(old(projectiles[projectileNumber]))
                         + old(Projectiles()[projectileNumber + 1..]) &&
        next == projectileNumber + |Moved(old(projectiles[projectileNumber]))|
      ensures stalled ==> TopRowFull(Asteroids(), FIELD_WIDTH)
    {
      var x := GetX(projectiles[projectileNumber]);
      var y := GetY(projectiles[projectileNumber]);
      DecodeEncode(projectiles[projectileNumber]);
      hits := ScanForCollisions(projectileNumber, x, y);
      if stalled {
        return projectileNumber, hits;
      }
      next := MoveOrRemove(projectileNumber, x, y);
    }

    /**
     * The end of the advance_projectiles loop body: the projectile read at
     * (x, y) from slot `projectileNumber` is removed from that slot if it was
     * on the top row, or else written one row up into that slot.
     */
    method MoveOrRemove(projectileNumber: int, x: byte, y: byte) returns (next: int)
      requires Valid()
      requires 0 <= projectileNumber < MAX_PROJECTILES && x < FIELD_WIDTH && y < FIELD_HEIGHT
      modifies this`numProjectiles, projectiles
      ensures Valid()
      ensures y == 15 ==>
        next == projectileNumber &&
        numProjectiles == old(numProjectiles) - (if projectileNumber < old(numProjectiles) then 1 else 0)
      ensures y != 15 ==> next == projectileNumber + 1 && numProjectiles == old(numProjectiles)
      ensures projectileNumber < old(numProjectiles) ==>
        Projectiles() == old(Projectiles()[..projectileNumber]) + Moved(GamePosition(x, y))
                         + old(Projectiles()[projectileNumber + 1..])
    {
      MovedAt(x, y);
      if y + 1 == FIELD_HEIGHT {
        RemoveProjectile(projectileNumber);
        next := projectileNumber;
      } else {
        LiftProjectile(projectileNumber, x, y);
        next := projectileNumber + 1;
      }
    }

    /** The projectile in slot `projectileNumber`, at (x, y) below the top row, moves up a row. */
    method LiftProjectile(projectileNumber: int, x: byte, y: byte)
      requires Valid()
      requires 0 <= projectileNumber < MAX_PROJECTILES && x < FIELD_WIDTH && y < FIELD_HEIGHT - 1
      modifies projectiles
      ensures Valid()
      ensures projectiles[..] == old(projectiles[..])[projectileNumber := GamePosition(x, y + 1)]
      ensures projectileNumber < numProjectiles ==>
        Projectiles() == old(Projectiles()[..projectileNumber]) + [GamePosition(x, y + 1)]
                         + old(Projectiles()[projectileNumber + 1..])
    {
      ghost var was := Projectiles();
      projectiles[projectileNumber] := GamePosition(x, y + 1);
      if projectileNumber < numProjectiles {
        assert Projectiles() == was[..projectileNumber] + [GamePosition(x, y + 1)] + was[projectileNumber + 1..];
      }
    }

    /** StepProjectile, with the bookkeeping of the quiet case of AdvanceProjectiles. */
    method TrackedStep(projectileNumber: int, ghost shots: seq<byte>, ghost consumed: nat,
                       ghost rocks: seq<byte>, ghost rockCount: int, ghost quiet: bool)
      returns (next: int, ghost hits: nat)
      requires Valid() && !stalled
      requires 0 <= projectileNumber < numProjectiles
      requires quiet ==> QuietSoFar(shots, consumed, rocks, projectileNumber, rockCount)
      modifies this`numProjectiles, this`numAsteroids, this`stalled, projectiles, asteroids, score
      ensures Valid()
      ensures numProjectiles <= old(numProjectiles)
      ensures projectileNumber <= next <= projectileNumber + 1
      ensures !stalled && next < numProjectiles ==> numProjectiles - next < old(numProjectiles) - projectileNumber
      ensures score.total == old(score.total) + hits
      ensures hits == 0 ==> !stalled
      ensures quiet && hits == 0 ==> QuietSoFar(shots, consumed + 1, rocks, next, rockCount)
      ensures quiet && hits > 0 ==> !NoHit(shots, rocks)
      ensures stalled ==> TopRowFull(Asteroids(), FIELD_WIDTH)
    {
      ghost var p0 := Projectiles();
      next, hits := StepProjectile(projectileNumber);
      if quiet && hits > 0 {
        assert p0[projectileNumber] == shots[consumed];
        HitBreaksNoHit(shots, consumed, rocks);
      }
      if quiet && hits == 0 {
        QuietStep(shots, consumed, rocks, p0, projectileNumber, Projectiles(), next);
      }
    }

    /**
     * advance_projectiles: each live projectile in turn is scanned for
     * collisions and then removed if it is on the top row, or else moved one
     * row up. The position read before the scan is the one moved, so after a
     * hit the projectile that took over the slot is the one overwritten.
     */
    method AdvanceProjectiles() returns (ghost hits: nat)
      requires Valid() && !stalled
      modifies this`numProjectiles, this`numAsteroids, this`stalled, projectiles, asteroids, score
      ensures Valid()
      ensures numProjectiles <= old(numProjectiles)
      ensures score.total == old(score.total) + hits
      ensures hits == 0 <==> NoHit(old(Projectiles()), old(asteroids[..]))
      ensures hits == 0 ==>
        !stalled && Projectiles() == Advanced(old(Projectiles())) &&
        numAsteroids == old(numAsteroids) && asteroids[..] == old(asteroids[..])
      ensures stalled ==> TopRowFull(Asteroids(), FIELD_WIDTH)
    {
      ghost var shots := Projectiles();
      ghost var rocks := asteroids[..];
      ghost var consumed: nat := 0;
      hits := 0;
      var projectileNumber := 0;
      while projectileNumber < numProjectiles
        invariant Valid() && !stalled
        invariant 0 <= projectileNumber <= MAX_PROJECTILES
        invariant numProjectiles <= old(numProjectiles)
        invariant score.total == old(score.total) + hits
        invariant hits == 0 ==> QuietSoFar(shots, consumed, rocks, projectileNumber, old(numAsteroids))
        invariant NoHit(shots, rocks) ==> hits == 0
        decreases if projectileNumber < numProjectiles then numProjectiles - projectileNumber else 0
      {
        ghost var before := hits;
        var next, h := TrackedStep(projectileNumber, shots, consumed, rocks, old(numAsteroids), before == 0);
        hits := before + h;
        if stalled {
          return;
        }
        projectileNumber := next;
        consumed := consumed + 1;
      }
      if hits == 0 {
        assert shots[..consumed] == shots;
      }
    }

    /**
     * While no projectile has hit: the first `slot` projectiles are the
     * advanced images of the first `consumed` originals, the rest are the
     * remaining originals, and the asteroids are untouched.
     */
    ghost predicate QuietSoFar(shots: seq<byte>, consumed: nat, rocks: seq<byte>, slot: int, rockCount: int)
      reads this, projectiles, asteroids
    {
      consumed <= |shots| && 0 <= slot <= numProjectiles <= projectiles.Length &&
      Projectiles()[..slot] == Advanced(shots[..consumed]) &&
      Projectiles()[slot..] == shots[consumed..] &&
      numAsteroids == rockCount && asteroids[..] == rocks &&
      NoHit(shots[..consumed], rocks)
    }

    // -------------------------------------------------------------------
    // The asteroid step

    /**
     * The lives report at the head of each pass of advance_falling_astroid:
     * when the counter has changed since the last report, remember it, and
     * with no lives remaining (4 - counter == 0 as a uint32_t) raise the
     * game-over flag. The score read and the terminal output are not modelled.
     */
    method ReportLives()
      requires Valid()
      modifies this`temp, timer`xk
      ensures Valid()
      ensures LivesOf() == Report(old(LivesOf()))
    {
      if counter != temp {
        var lives := (4 - counter) % UINT32_MODULUS;
        temp := counter;
        LivesZeroIff(counter);
        if lives == 0 {
          timer.ResetX(1);
        }
      }
    }

    /**
     * One pass of the advance_falling_astroid loop for asteroid k. The row
     * is lowered as a uint8_t, so row 0 becomes 255, which the position
     * macro masks to row 15. A landing on the base removes the asteroid,
     * costs a life and writes a new asteroid, at column (uint8_t)random()
     * on the top row, into slot k; the entry that the removal moved into
     * slot k is overwritten.
     */
    method FallStep(k: int) returns (landed: bool)
      requires Valid() && !stalled
      requires 0 <= k < numAsteroids
      modifies this`numAsteroids, this`counter, this`temp, this`stalled, asteroids, timer`portC, timer`xk
      ensures Valid()
      ensures landed <==> Lands(old(asteroids[k]), basePosition)
      ensures LivesOf() == LivesStep(old(LivesOf()), landed)
      ensures !landed ==>
        !stalled && numAsteroids == old(numAsteroids) &&
        asteroids[..] == old(asteroids[..])[k := Fall(old(asteroids[k]))]
      ensures landed ==> numAsteroids == old(numAsteroids) - 1
      ensures landed && !stalled ==>
        asteroids[..] == old(asteroids[..])[k := asteroids[k]] && GetY(asteroids[k]) == 15 &&
        forall j :: 0 <= j < numAsteroids && j != k ==> asteroids[j] != asteroids[k]
      ensures stalled ==> TopRowFull(Asteroids(), 16)
    {
      var posX := GetX(asteroids[k]);
      var posY: int := GetY(asteroids[k]);
      ReportLives();
      posY := (posY + 255) % 256;
      landed := posY == -1 || (posX == basePosition && posY == 1) ||
        (posX == basePosition + 1 && posY == 0) || (posX == basePosition - 1 && posY == 0);
      if landed {
        LandOnBase(k, posY);
      } else {
        asteroids[k] := GamePosition(posX, posY);
      }
    }

    /**
     * The landing branch of advance_falling_astroid for asteroid k, whose
     * lowered row `posY` is a uint8_t and so never -1: remove it, count the
     * lost life, turn its LED off, and write a new asteroid at column
     * (uint8_t)random() of the top row, on a cell asteroid_at reports free,
     * into slot k.
     */
    method LandOnBase(k: int, posY: int)
      requires Valid() && !stalled
      requires 0 <= k < numAsteroids && 0 <= posY < 256
      modifies this`numAsteroids, this`counter, this`stalled, asteroids, timer`portC, timer`xk
      ensures Valid()
      ensures numAsteroids == old(numAsteroids) - 1
      ensures LivesOf() == LoseLife(old(LivesOf()))
      ensures !stalled ==>
        asteroids[..] == old(asteroids[..])[k := asteroids[k]] && GetY(asteroids[k]) == 15 &&
        forall j :: 0 <= j < numAsteroids && j != k ==> asteroids[j] != asteroids[k]
      ensures stalled ==> TopRowFull(Asteroids(), 16)
    {
      RemoveAsteroid(k);
      if posY != -1 {
        CountLostLife();
      }
      RespawnInto(k);
    }

    /** counter = counter + 1 as a uint32_t, then lifeLost(counter) with the counter passed as an AVR int. */
    method CountLostLife()
      requires Valid()
      modifies this`counter, timer`portC, timer`xk
      ensures Valid()
      ensures LivesOf() == LoseLife(old(LivesOf()))
    {
      counter := (counter + 1) % UINT32_MODULUS;
      timer.LifeLost(AsInt16(counter));
    }

    /**
     * The retry loop after a landing: x = (uint8_t)random(), y = 15 until
     * asteroid_at(x, y) reports the cell free; the position goes into slot k.
     */
    method RespawnInto(k: int)
      requires Valid() && !stalled
      requires 0 <= k < MAX_ASTEROIDS
      modifies this`stalled, asteroids
      ensures Valid()
      ensures stalled <==> TopRowFull(old(Asteroids()), 16)
      ensures stalled ==> asteroids[..] == old(asteroids[..])
      ensures !stalled ==>
        asteroids[..] == old(asteroids[..])[k := asteroids[k]] && GetY(asteroids[k]) == 15 &&
        forall j :: 0 <= j < numAsteroids && j != k ==> asteroids[j] != asteroids[k]
    {
      ghost var was := asteroids[..];
      var found, pos := ChooseTopRowCell(256);
      TopRowColumns(Asteroids());
      if !found {
        stalled := true;
        return;
      }
      asteroids[k] := pos;
      assert asteroids[..] == was[k := pos];
    }

    /**
     * advance_falling_astroid: every live asteroid in turn falls one row,
     * or, on landing on the base, costs a life. `landings` records, pass by
     * pass, whether the asteroid handled landed; `lost` counts the landings.
     * temp is reset to 0 first, so the first pass always reports the lives.
     */
    method AdvanceFallingAsteroid() returns (ghost lost: nat, ghost landings: seq<bool>)
      requires Valid() && !stalled
      modifies this`numAsteroids, this`counter, this`temp, this`stalled, asteroids, timer`portC, timer`xk
      ensures Valid()
      ensures lost == CountTrue(landings) && |landings| <= old(numAsteroids)
      ensures landings == [] <==> old(numAsteroids) == 0
      ensures lost == 0 <==> NoLanding(old(Asteroids()), basePosition)
      ensures numAsteroids == old(numAsteroids) - lost
      ensures LivesOf() == LivesAfter(old(LivesOf()).(temp := 0), landings)
      ensures counter == (old(counter) + lost) % UINT32_MODULUS
      ensures lost == 0 ==>
        !stalled && counter == old(counter) && timer.portC == old(timer.portC) &&
        Asteroids() == Fallen(old(Asteroids())) &&
        asteroids[numAsteroids..] == old(asteroids[numAsteroids..]) &&
        temp == (if numAsteroids > 0 then counter else 0) &&
        timer.xk == if numAsteroids > 0 && counter == 4 then 1 else old(timer.xk)
      ensures stalled ==> TopRowFull(Asteroids(), 16)
    {
      ghost var rocks := Asteroids();
      ghost var orig := asteroids[..];
      temp := 0;
      ghost var start := LivesOf();
      lost, landings := FallPasses(rocks, orig, start);
      LivesCounted(start, landings);
      if lost == 0 {
        QuietPassDone(rocks, orig, asteroids[..], basePosition, start, landings);
      }
    }

    /** The loop of advance_falling_astroid: one FallStep per live asteroid, until one stalls. */
    method FallPasses(ghost rocks: seq<byte>, ghost orig: seq<byte>, ghost start: Lives)
      returns (ghost lost: nat, ghost landings: seq<bool>)
      requires Valid() && !stalled
      requires rocks == Asteroids() && orig == asteroids[..] && start == LivesOf()
      modifies this`numAsteroids, this`counter, this`temp, this`stalled, asteroids, timer`portC, timer`xk
      ensures Valid() && basePosition == old(basePosition)
      ensures FallTally(rocks, orig, landings, lost, |rocks|, start)
      ensures |landings| <= |rocks| && (landings == [] <==> rocks == [])
      ensures lost == 0 ==> !stalled && |landings| == |rocks|
      ensures stalled ==> TopRowFull(Asteroids(), 16)
    {
      lost, landings := 0, [];
      var asteroidNum := 0;
      while asteroidNum < numAsteroids
        invariant Valid() && !stalled
        invariant 0 <= asteroidNum <= |rocks| && |landings| == asteroidNum
        invariant FallTally(rocks, orig, landings, lost, |rocks|, start)
        decreases numAsteroids - asteroidNum
      {
        var landed;
        landed, lost, landings := TrackedFall(asteroidNum, rocks, orig, landings, lost, |rocks|, start);
        if landed && stalled {
          return;
        }
        asteroidNum := asteroidNum + 1;
      }
    }

    /**
     * The loop state of advance_falling_astroid after one pass per entry of
     * `landings`: the asteroid count and the lives account for every landing,
     * and while there is none the state is QuietFall.
     */
    ghost predicate FallTally(rocks: seq<byte>, orig: seq<byte>, landings: seq<bool>, lost: nat,
                              n0: int, start: Lives)
      reads this, asteroids, timer
    {
      numAsteroids == n0 - lost && lost == CountTrue(landings) &&
      LivesOf() == LivesAfter(start, landings) &&
      (lost == 0 ==> QuietFall(rocks, orig, |landings|)) &&
      (NoLanding(rocks, basePosition) ==> lost == 0)
    }

    /** The state of the asteroid loop while no asteroid has landed: the first k slots have fallen. */
    ghost predicate QuietFall(rocks: seq<byte>, orig: seq<byte>, k: int)
      reads this, asteroids
    {
      k <= numAsteroids == |rocks| && FallenSoFar(rocks, orig, asteroids[..], k, basePosition)
    }

    /** FallStep, with the bookkeeping of AdvanceFallingAsteroid's loop. */
    method TrackedFall(k: int, ghost rocks: seq<byte>, ghost orig: seq<byte>, ghost landings: seq<bool>,
                       ghost lost: nat, ghost n0: int, ghost start: Lives)
      returns (landed: bool, ghost lost': nat, ghost landings': seq<bool>)
      requires Valid() && !stalled
      requires 0 <= k < numAsteroids && |landings| == k
      requires FallTally(rocks, orig, landings, lost, n0, start)
      modifies this`numAsteroids, this`counter, this`temp, this`stalled, asteroids, timer`portC, timer`xk
      ensures Valid()
      ensures landings' == landings + [landed] && lost' == lost + (if landed then 1 else 0)
      ensures FallTally(rocks, orig, landings', lost', n0, start)
      ensures !landed ==> !stalled && numAsteroids == old(numAsteroids)
      ensures landed ==> numAsteroids == old(numAsteroids) - 1
      ensures stalled ==> TopRowFull(Asteroids(), 16)
    {
      ghost var before := asteroids[..];
      if lost == 0 {
        assert before[k] == before[k..][0] == rocks[k];
      }
      landed := FallStep(k);
      landings' := landings + [landed];
      LivesAfterSnoc(start, landings, landed);
      if landed {
        lost' := lost + 1;
      } else {
        lost' := lost;
        if lost == 0 {
          QuietFallStep(rocks, orig, before, asteroids[..], k, basePosition);
        }
      }
    }

    /** is_game_over: consume the game-over flag; on game over clear the life bookkeeping. */
    method IsGameOver() returns (over: bool)
      requires Valid()
      modifies this`counter, this`temp, timer`xk
      ensures Valid()
      ensures over <==> old(timer.xk) == 1
      ensures timer.xk == if old(timer.xk) == 1 then 0 else old(timer.xk)
      ensures over ==> counter == 0 && temp == 0
      ensures !over ==> counter == old(counter) && temp == old(temp)
    {
      var state := timer.ReturnGameState();
      if state == 1 {
        counter := 0;
        temp := 0;
        return true;
      }
      return false;
    }
  }
}
