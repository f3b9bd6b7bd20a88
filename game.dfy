/**
 * The game state of the brick breaker: score, lives, level, ball speed,
 * whether the ball is in play, the paddle's position and the bricks still
 * standing, with the handlers that change them (start, paddle movement,
 * a brick hit with bomb explosions, losing the ball, winning a level and
 * restarting after game over).
 *
 * Every handler that rebuilds the bricks takes the stream of draws the new
 * layout is generated from.
 */
module Arkanoid {
  import opened Grid
  import opened Layout

  const StartLives := 3
  const StartSpeed := 200
  const PaddleMin := 50
  const PaddleMax := 750
  const PaddleStart := 400
  const PaddleStep := 8
  const BrickPoints := 10

  /** Math.floor(speed * 1.25): the ball speed after a level is won. */
  function NextSpeed(speed: nat): (r: nat)
    ensures 4 * r <= 5 * speed < 4 * r + 4
  {
    (5 * speed) / 4
  }

  /** The ball speed on a level reached without a restart: 200, then a quarter more (rounded down) per level won. */
  function SpeedFor(level: nat): nat
    requires level >= 1
  {
    if level == 1 then StartSpeed else NextSpeed(SpeedFor(level - 1))
  }

  /** Phaser.Math.Clamp(x, lo, hi). */
  function Clamp(x: int, lo: int, hi: int): (r: int)
    requires lo <= hi
    ensures lo <= r <= hi
    ensures lo <= x <= hi ==> r == x
    ensures x < lo ==> r == lo
    ensures x > hi ==> r == hi
  {
    if x < lo then lo else if x > hi then hi else x
  }

  /** The bricks a hit on c removes: c itself and, when c is a bomb, the bricks on its eight neighbouring cells. */
  function Blast(bricks: map<Cell, Kind>, c: Cell): set<Cell>
    requires c in bricks
  {
    set d | d in bricks && (d == c || (bricks[c] == Bomb && d in Neighbours(c)))
  }

  /** The game, the global variables of main.js. */
  class Game {
    var score: int
    var lives: int
    var level: int
    var ballSpeed: int
    /** gameStarted: the ball is in play. */
    var started: bool
    /** The GAME OVER screen is up and R restarts. */
    var over: bool
    /** The active bricks, by grid cell. */
    var bricks: map<Cell, Kind>
    var paddleX: int

    /** What every handler keeps, whether or not lives are handled correctly. */
    ghost predicate Valid()
      reads this
    {
      Counters() && BricksFit()
    }

    /** The level, the speed it has reached, a score made of 10-point bricks, and the paddle on the playfield. */
    predicate Counters()
      reads this
    {
      && level >= 1
      && ballSpeed == SpeedFor(level)
      && score >= 0 && score % BrickPoints == 0
      && PaddleMin <= paddleX <= PaddleMax
    }

    /** The bricks stand on the current level's shape, and bombs are apart unless the shape is the checkerboard. */
    ghost predicate BricksFit()
      reads this
      requires level >= 1
    {
      && (forall c :: c in bricks ==> InLayout(LayoutIndex(level), c))
      && (Checked(LayoutIndex(level)) ==> NoAdjacentBombs(bricks))
    }

    /** Lives never go below zero, game over is exactly zero lives, and the ball is only in play with a life left. */
    predicate LivesOk()
      reads this
    {
      && 0 <= lives <= StartLives
      && (over <==> lives == 0)
      && (started ==> lives >= 1)
    }

    /** create(): three lives, level 1, speed 200, the paddle centred and the first layout's bricks. */
    constructor(draws: nat -> int)
      ensures Valid() && LivesOk()
      ensures score == 0 && lives == StartLives && level == 1 && ballSpeed == StartSpeed
      ensures !started && !over && paddleX == PaddleStart
      ensures bricks == Generate(0, draws)
    {
      score := 0;
      lives := StartLives;
      level := 1;
      ballSpeed := StartSpeed;
      started := false;
      over := false;
      paddleX := PaddleStart;
      bricks := map[];
      new;
      Rebuild(draws);
    }

    /** startGame, with the game-over state respected: puts the ball in play unless it is already in play or the game is over. */
    method StartGame()
      requires Valid()
      modifies this
      ensures Valid()
      ensures started == (old(started) || !over)
      ensures score == old(score) && lives == old(lives) && level == old(level) && ballSpeed == old(ballSpeed)
      ensures over == old(over) && bricks == old(bricks) && paddleX == old(paddleX)
      ensures old(LivesOk()) ==> LivesOk()
    {
      if !started && !over {
        started := true;
      }
    }

    /** startGame as main.js has it: the SPACE and click handlers stay wired after game over and nothing checks lives. */
    method StartGameAsWritten()
      requires Valid()
      modifies this
      ensures Valid()
      ensures started
      ensures score == old(score) && lives == old(lives) && level == old(level) && ballSpeed == old(ballSpeed)
      ensures over == old(over) && bricks == old(bricks) && paddleX == old(paddleX)
    {
      if !started {
        started := true;
      }
    }

    /** update(): nothing before the ball is in play; otherwise the left key moves the paddle 8 left, else the right key 8 right, within [50, 750]. */
    method Update(leftDown: bool, rightDown: bool)
      requires Valid()
      modifies this
      ensures Valid()
      ensures !old(started) ==> paddleX == old(paddleX)
      ensures old(started) && leftDown ==> paddleX == Clamp(old(paddleX) - PaddleStep, PaddleMin, PaddleMax)
      ensures old(started) && !leftDown && rightDown ==> paddleX == Clamp(old(paddleX) + PaddleStep, PaddleMin, PaddleMax)
      ensures old(started) && !leftDown && !rightDown ==> paddleX == old(paddleX)
      ensures -PaddleStep <= paddleX - old(paddleX) <= PaddleStep
      ensures score == old(score) && lives == old(lives) && level == old(level) && ballSpeed == old(ballSpeed)
      ensures started == old(started) && over == old(over) && bricks == old(bricks)
    {
      if !started {
        return;
      }
      if leftDown {
        paddleX := paddleX - PaddleStep;
        paddleX := if PaddleMin > paddleX then PaddleMin else paddleX;
      } else if rightDown {
        paddleX := paddleX + PaddleStep;
        paddleX := if PaddleMax < paddleX then PaddleMax else paddleX;
      }
    }

    /** The pointermove handler: the paddle follows the pointer, clamped to [50, 750], whether or not the ball is in play. */
    method PointerMove(pointerX: int)
      requires Valid()
      modifies this
      ensures Valid()
      ensures paddleX == Clamp(pointerX, PaddleMin, PaddleMax)
      ensures score == old(score) && lives == old(lives) && level == old(level) && ballSpeed == old(ballSpeed)
      ensures started == old(started) && over == old(over) && bricks == old(bricks)
    {
      paddleX := Clamp(pointerX, PaddleMin, PaddleMax);
    }

    /**
     * hitBrick: the brick at c goes for 10 points; a bomb also takes out
     * the bricks on its eight neighbouring cells, 10 points each, without
     * setting off neighbouring bombs. When no brick is left the level is won.
     */
    method HitBrick(c: Cell, draws: nat -> int)
      requires Valid() && c in bricks
      modifies this
      ensures Valid()
      ensures score == old(score) + BrickPoints * |Blast(old(bricks), c)|
      ensures lives == old(lives) && over == old(over) && paddleX == old(paddleX)
      ensures Blast(old(bricks), c) != old(bricks).Keys ==>
        bricks == old(bricks) - Blast(old(bricks), c)
        && level == old(level) && ballSpeed == old(ballSpeed) && started == old(started)
      ensures Blast(old(bricks), c) == old(bricks).Keys ==>
        level == old(level) + 1 && ballSpeed == NextSpeed(old(ballSpeed)) && !started
        && bricks == Generate(LayoutIndex(level), draws)
      ensures old(LivesOk()) ==> LivesOk()
    {
      ghost var before := bricks;
      var remaining, destroyed := Hit(bricks, c);
      RemovalKeepsFit(before, Blast(before, c), level);
      TenPointsEach(score, destroyed);
      bricks := remaining;
      score := score + BrickPoints * destroyed;
      ClearedIff(before, Blast(before, c));
      if |bricks| == 0 {
        WinGame(draws);
      }
    }

    /** winGame: the ball stops, the level goes up, the speed a quarter up (rounded down), and the next level's bricks are built. */
    method WinGame(draws: nat -> int)
      requires Valid()
      modifies this
      ensures Valid()
      ensures level == old(level) + 1 && ballSpeed == NextSpeed(old(ballSpeed)) && !started
      ensures bricks == Generate(LayoutIndex(level), draws)
      ensures score == old(score) && lives == old(lives) && over == old(over) && paddleX == old(paddleX)
      ensures old(LivesOk()) ==> LivesOk()
    {
      started := false;
      level := level + 1;
      ballSpeed := NextSpeed(ballSpeed);
      Rebuild(draws);
    }

    /** The ball reaches the bottom edge: one life goes; at zero the game is over, otherwise the ball is reset and the level's bricks rebuilt. */
    method LoseBall(draws: nat -> int)
      requires Valid() && started
      modifies this
      ensures Valid()
      ensures lives == old(lives) - 1 && !started
      ensures over == (old(over) || lives == 0)
      ensures lives == 0 ==> bricks == old(bricks)
      ensures lives != 0 ==> bricks == Generate(LayoutIndex(level), draws)
      ensures score == old(score) && level == old(level) && ballSpeed == old(ballSpeed) && paddleX == old(paddleX)
      ensures old(LivesOk()) ==> LivesOk()
    {
      lives := lives - 1;
      if lives == 0 {
        GameOver();
      } else {
        ResetBallAndBricks(draws);
      }
    }

    /** gameOver: the ball stops and the GAME OVER screen, with R to restart, comes up. */
    method GameOver()
      requires Valid() && lives == 0
      modifies this
      ensures Valid() && LivesOk()
      ensures !started && over
      ensures score == old(score) && lives == old(lives) && level == old(level) && ballSpeed == old(ballSpeed)
      ensures bricks == old(bricks) && paddleX == old(paddleX)
    {
      started := false;
      over := true;
    }

    /** resetBallAndBricks: the ball stops and the current level's bricks are built afresh. */
    method ResetBallAndBricks(draws: nat -> int)
      requires Valid()
      modifies this
      ensures Valid()
      ensures !started && bricks == Generate(LayoutIndex(level), draws)
      ensures score == old(score) && lives == old(lives) && level == old(level) && ballSpeed == old(ballSpeed)
      ensures over == old(over) && paddleX == old(paddleX)
    {
      started := false;
      Rebuild(draws);
    }

    /** The R handler after game over: the scene restarts with score 0, three lives, level 1 and speed 200. */
    method Restart(draws: nat -> int)
      requires Valid() && over
      modifies this
      ensures Valid() && LivesOk()
      ensures score == 0 && lives == StartLives && level == 1 && ballSpeed == StartSpeed
      ensures !started && !over && paddleX == PaddleStart
      ensures bricks == Generate(0, draws)
    {
      score := 0;
      lives := StartLives;
      level := 1;
      ballSpeed := StartSpeed;
      started := false;
      over := false;
      paddleX := PaddleStart;
      Rebuild(draws);
    }

    /** bricks.clear() followed by createBricks(): the current level's layout, generated afresh. */
    method Rebuild(draws: nat -> int)
      requires Counters()
      modifies this
      ensures Valid()
      ensures bricks == Generate(LayoutIndex(level), draws)
      ensures score == old(score) && lives == old(lives) && level == old(level) && ballSpeed == old(ballSpeed)
      ensures started == old(started) && over == old(over) && paddleX == old(paddleX)
    {
      bricks := CreateBricks(LayoutIndex(level), draws);
    }
  }

  /** What a hit removes: the brick alone, or for a bomb the brick and the bricks on its eight neighbouring cells. */
  lemma BlastSplit(bricks: map<Cell, Kind>, c: Cell)
    requires c in bricks
    ensures bricks[c] != Bomb ==> Blast(bricks, c) == {c}
    ensures bricks[c] == Bomb ==> Blast(bricks, c) == {c} + (bricks - {c}).Keys * Neighbours(c)
    ensures bricks[c] == Bomb ==> |Blast(bricks, c)| == 1 + |(bricks - {c}).Keys * Neighbours(c)|
    ensures (bricks - {c}) - Blast(bricks, c) == bricks - Blast(bricks, c)
  {
    NeighboursFacts(c);
    if bricks[c] == Bomb {
      var rest := (bricks - {c}).Keys * Neighbours(c);
      assert Blast(bricks, c) == {c} + rest;
      assert c !in rest;
    }
  }

  /**
   * The bricks hitBrick destroys: the brick hit and, when it is a bomb, the
   * explosion around it; returns the bricks left and how many went.
   */
  method Hit(bricks: map<Cell, Kind>, c: Cell) returns (remaining: map<Cell, Kind>, destroyed: nat)
    requires c in bricks
    ensures remaining == bricks - Blast(bricks, c)
    ensures destroyed == |Blast(bricks, c)|
  {
    var isBomb := bricks[c] == Bomb;
    remaining := bricks - {c};
    destroyed := 1;
    if isBomb {
      var exploded;
      remaining, exploded := Explode(remaining, c);
      destroyed := destroyed + exploded;
    }
    BlastSplit(bricks, c);
  }

  /**
   * The explosion: for each of the eight offsets in turn, the brick on
   * that cell, if any, is destroyed; returns the bricks left and how many
   * were destroyed.
   */
  method Explode(bricks: map<Cell, Kind>, c: Cell) returns (remaining: map<Cell, Kind>, destroyed: nat)
    ensures remaining == bricks - Neighbours(c)
    ensures destroyed == |bricks.Keys * Neighbours(c)|
  {
    remaining, destroyed := bricks, 0;
    ghost var gone: set<Cell> := {};
    for i := 0 to |Offsets|
      invariant gone == bricks.Keys * NeighboursBelow(c, i)
      invariant remaining == bricks - gone
      invariant destroyed == |gone|
    {
      var other := Shift(c, i);
      ExplodeStep(bricks, gone, c, i);
      if other in remaining {
        gone := gone + {other};
        remaining := remaining - {other};
        destroyed := destroyed + 1;
      }
    }
    ExplodeDone(bricks, gone, c);
  }

  /** One offset of the explosion: the brick on that cell, if any, joins the removed ones. */
  lemma ExplodeStep(before: map<Cell, Kind>, gone: set<Cell>, c: Cell, i: nat)
    requires i < |Offsets| && gone == before.Keys * NeighboursBelow(c, i)
    ensures Shift(c, i) in before - gone ==>
      && Shift(c, i) !in gone
      && gone + {Shift(c, i)} == before.Keys * NeighboursBelow(c, i + 1)
      && (before - gone) - {Shift(c, i)} == before - (gone + {Shift(c, i)})
    ensures Shift(c, i) !in before - gone ==> gone == before.Keys * NeighboursBelow(c, i + 1)
  {
    NeighboursBelowStep(c, i);
  }

  /** After all eight offsets the removed bricks are those on the neighbouring cells. */
  lemma ExplodeDone(before: map<Cell, Kind>, gone: set<Cell>, c: Cell)
    requires gone == before.Keys * NeighboursBelow(c, |Offsets|)
    ensures before - gone == before - Neighbours(c)
    ensures gone == before.Keys * Neighbours(c)
  {
  }

  /** A hit destroys the brick hit, and beyond it only bricks adjacent to a bomb that was hit: explosions do not chain. */
  lemma BlastIff(bricks: map<Cell, Kind>, c: Cell, d: Cell)
    requires c in bricks
    ensures d in Blast(bricks, c) <==> d in bricks && (d == c || (bricks[c] == Bomb && Adjacent(d, c)))
  {
    NeighboursAreAdjacent(c, d);
  }

  /** A hit scores 10 points for the brick hit and 10 for each brick the explosion takes: 10 to 90 points, 10 for a brick that is not a bomb. */
  lemma HitPoints(bricks: map<Cell, Kind>, c: Cell)
    requires c in bricks
    ensures 1 <= |Blast(bricks, c)| <= 9
    ensures bricks[c] != Bomb ==> |Blast(bricks, c)| == 1
  {
    BlastSplit(bricks, c);
    NeighboursFacts(c);
    if bricks[c] == Bomb {
      var rest := (bricks - {c}).Keys * Neighbours(c);
      SubsetSize(rest, Neighbours(c));
    }
  }

  /** A subset is no larger than the set. */
  lemma {:induction false} SubsetSize(a: set<Cell>, b: set<Cell>)
    requires a <= b
    ensures |a| <= |b|
    decreases |a|
  {
    if a != {} {
      var x :| x in a;
      SubsetSize(a - {x}, b - {x});
    }
  }

  /** Each level won raises the speed, from 200 up: 250, 312, 390, 487 on levels 2 to 5. */
  lemma {:induction false} SpeedGrows(level: nat)
    requires level >= 1
    ensures SpeedFor(level) >= StartSpeed
    ensures SpeedFor(level + 1) > SpeedFor(level)
  {
    if level > 1 {
      SpeedGrows(level - 1);
    }
  }

  lemma SpeedTable()
    ensures SpeedFor(2) == 250 && SpeedFor(3) == 312 && SpeedFor(4) == 390 && SpeedFor(5) == 487
  {
    assert SpeedFor(2) == 250;
    assert SpeedFor(3) == 312;
    assert SpeedFor(4) == 390;
  }

  /** Three balls lost in a row end the game: no lives, the ball out of play and R needed. */
  method PlayToGameOver(draws: nat -> int) returns (game: Game)
    ensures fresh(game) && game.Valid() && game.LivesOk()
    ensures game.lives == 0 && game.over && !game.started
  {
    game := new Game(draws);
    game.StartGame();
    game.LoseBall(draws);
    game.StartGame();
    game.LoseBall(draws);
    game.StartGame();
    game.LoseBall(draws);
  }

  /** In main.js a click or SPACE after game over relaunches the ball, and missing it leaves -1 lives, after which the game never ends. */
  method ClickAfterGameOver(draws: nat -> int) returns (lives: int, over: bool)
    ensures lives == -1 && over
  {
    var game := PlayToGameOver(draws);
    game.StartGameAsWritten();
    game.LoseBall(draws);
    lives, over := game.lives, game.over;
  }

  /** With startGame refusing after game over, a click leaves the ball out of play and the lives at 0. */
  method ClickAfterGameOverRefused(draws: nat -> int) returns (lives: int, started: bool)
    ensures lives == 0 && !started
  {
    var game := PlayToGameOver(draws);
    game.StartGame();
    lives, started := game.lives, game.started;
  }

  /** Removing some of the bricks leaves none exactly when it removes them all. */
  lemma ClearedIff(before: map<Cell, Kind>, gone: set<Cell>)
    requires gone <= before.Keys
    ensures |before - gone| == 0 <==> gone == before.Keys
  {
    if gone == before.Keys {
      assert before - gone == map[];
    } else {
      assert !(before.Keys <= gone);
      var d :| d in before.Keys && d !in gone;
      assert d in before - gone;
    }
  }

  /** Removing bricks keeps them inside the level's shape and keeps bombs apart. */
  lemma RemovalKeepsFit(before: map<Cell, Kind>, gone: set<Cell>, level: int)
    requires level >= 1
    requires forall c :: c in before ==> InLayout(LayoutIndex(level), c)
    requires Checked(LayoutIndex(level)) ==> NoAdjacentBombs(before)
    ensures forall c :: c in before - gone ==> InLayout(LayoutIndex(level), c)
    ensures Checked(LayoutIndex(level)) ==> NoAdjacentBombs(before - gone)
  {
  }

  /** A score made of 10-point bricks stays one after more 10-point bricks. */
  lemma TenPointsEach(score: int, n: nat)
    requires score >= 0 && score % BrickPoints == 0
    ensures score + BrickPoints * n >= 0 && (score + BrickPoints * n) % BrickPoints == 0
  {
  }
}
