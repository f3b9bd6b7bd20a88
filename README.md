# Brick breaker: layouts, brick hits and game state

A model of `main.js`, the game logic of a Phaser brick breaker, with proofs about it.

- `grid.dfy` (module `Grid`): grid cells, the three brick kinds and the eight neighbour offsets. It also models `hasAdjacentBomb`.
- `layout.dfy` (module `Layout`): `createBricks`. This covers the six procedural layouts, the random choice between bomb, spring and plain bricks, and the rule that keeps bombs apart.
  - The nested row and column loops are `CreateBricks`, `FillRow`, `PlaceAt` and `PlaceBrick`.
  - These loops are proved equal to `Generate`, a fold over the cells in visiting order.
  - The layout facts are proved about `Generate`: its shape, its brick count, the kind each draw gives, and that no two bombs are adjacent.
- `game.dfy` (module `Arkanoid`): the global game state as class `Game`, with one method per handler:
  - `startGame`, the keyboard and pointer paddle control, `hitBrick` with bomb explosions, and `winGame`;
  - losing the ball, `gameOver`, `resetBallAndBricks`, and the R restart.

`Math.random()` becomes a stream of integer draws `draws: nat -> int`. Draw `k` stands for the k-th call's value scaled to [0, 100): a draw `d` means `rand = d / 100`, so `rand < 0.15` is `d < 15` and `rand < 0.25` is `d < 25`. Every handler that builds bricks takes the stream the new layout is generated from. Pointer coordinates are integers.

## Model

| member | source | states |
|---|---|---|
| Grid.HasAdjacentBomb | main.js:211-224 | The loop over the eight offsets, which stops at the first recorded bomb, returns true exactly when one of the eight cells around (gridX, gridY) holds a recorded bomb. |
| Grid.BombAroundIff | main.js:211-224 | The offset test is the same as "some recorded bomb is adjacent (by side or corner) to the cell". |
| Grid.NeighboursAreAdjacent | main.js:504-513 | The eight offsets reach exactly the cells adjacent to a cell. |
| Grid.NeighboursFacts | main.js:504-513 | A cell is not among its own neighbours, and it has exactly eight of them. |
| Layout.LayoutIndex | main.js:461-462 | The layout index of a level is below 6 and agrees with level - 1 modulo 6. |
| Layout.LayoutCycle | main.js:461-462 | Levels 1 to 6 use layouts 0 to 5, and the layouts repeat every six levels. |
| Layout.CreateBricks | main.js:200-465 | The nested loops produce exactly `Generate(layout, draws)`. The bricks sit on exactly the layout's shape. Outside the checkerboard, no two bombs are adjacent. |
| Layout.FillRow | main.js:232-263 | One run of the inner column loop places the row's in-shape cells from consecutive draws, leaving the rest of the generation unchanged. |
| Layout.PlaceAt | main.js:270-275 | The grid cell of a column is col + row offset (0, row for the pyramid, the distance for the diamond); placing it uses exactly one draw. |
| Layout.PlaceBrick | main.js:236-264 | One loop body. A draw below 15 makes a bomb unless the layout checks and a recorded bomb is adjacent. Otherwise a draw below 25 makes a spring, else a plain brick. Bombs are recorded only where the layout checks. |
| Layout.ShapeCellsFacts | main.js:227-458 | The loops visit exactly the cells of the layout's shape (rectangle, pyramid, checkerboard, diamond, walls, cross), each cell once. |
| Layout.OnGridIsInLayout | main.js:227-458 | The loops' row, column and offset arithmetic yields exactly the shape written in grid coordinates. |
| Layout.ShapeCellsCount | main.js:227-458 | The six layouts visit 50, 52, 30, 41, 38 and 22 cells. |
| Layout.GenerateShape | main.js:227-458 | A generated layout has a brick on a cell exactly when the cell is in the shape. |
| Layout.GenerateCount | main.js:227-458 | A generated layout has 50, 52, 30, 41, 38 or 22 bricks. |
| Layout.GenerateNoAdjacentBombs | main.js:207-224 | In every layout but the checkerboard, no two bombs are adjacent, whatever the draws. |
| Layout.GenerateKinds | main.js:236-264 | The i-th visited brick is plain exactly when draw i is 25 or more, and a bomb only when the draw is below 15. A draw below 15 that did not give a bomb gave a spring next to a bomb, so a blocked bomb falls through to spring. In the checkerboard, a bomb is exactly a draw below 15. |
| Layout.UncheckedAllowsAdjacentBombs | main.js:309-321 | The checkerboard skips the check: with all draws 0, its bombs at (0,0) and (1,1) are adjacent. |
| Arkanoid.NextSpeed | main.js:594 | Math.floor(speed * 1.25): r is the largest integer with 4r <= 5·speed. |
| Arkanoid.SpeedGrows | main.js:593-594 | Every level reached without a restart has speed at least 200, and winning a level raises it. |
| Arkanoid.SpeedTable | main.js:593-594 | Levels 2 to 5 run at speeds 250, 312, 390 and 487. |
| Arkanoid.Clamp | main.js:144 | Phaser.Math.Clamp: the result lies in [lo, hi]. It is the input when the input is in range, otherwise the nearer bound. |
| Arkanoid.Game.constructor | main.js:27-34 | The game starts with score 0, 3 lives, level 1 and speed 200. The ball is not in play, the paddle is at 400, and the bricks are layout 0 generated from the draws. |
| Arkanoid.Game.StartGame | main.js:467-473 | Puts the ball in play unless it is already in play or the game is over (the corrected version; see Findings). Lives are left unchanged. |
| Arkanoid.Game.StartGameAsWritten | main.js:467-473 | As written, the ball is always in play afterwards, whatever the lives. |
| Arkanoid.Game.Update | main.js:185-198 | Before the ball is in play, nothing moves. Otherwise the left key moves the paddle 8 left, or else the right key 8 right, clamped to [50, 750]. The paddle never moves more than 8. |
| Arkanoid.Game.PointerMove | main.js:143-145 | The paddle goes to the pointer's x clamped to [50, 750], in or out of play. |
| Arkanoid.Game.HitBrick | main.js:481-538 | The score rises by 10 per destroyed brick. Unless that clears the board, exactly the blast is removed and nothing else changes. The level is won exactly when the blast takes every brick left. |
| Arkanoid.Hit | main.js:486-531 | The bricks left are the old ones minus the blast, and the count destroyed is the blast's size. |
| Arkanoid.Explode | main.js:502-531 | The loop over the eight offsets removes exactly the bricks on the neighbouring cells and counts them. |
| Arkanoid.BlastIff | main.js:502-531 | A hit destroys the brick hit, plus the bricks adjacent to it when it is a bomb, and nothing else. Bombs set off by a blast do not explode in turn. |
| Arkanoid.HitPoints | main.js:487-528 | A hit destroys 1 to 9 bricks (10 to 90 points); a brick that is not a bomb destroys exactly 1. |
| Arkanoid.ClearedIff | main.js:535-537 | Removing a set of bricks leaves none exactly when it removes all of them, which is the win test. |
| Arkanoid.Game.WinGame | main.js:588-648 | The ball stops, the level goes up by 1 and the speed becomes floor(1.25·speed). The next level's layout is built; score and lives are kept. |
| Arkanoid.Game.LoseBall | main.js:123-134 | One life goes. At 0 lives the game is over and the bricks stay; otherwise the ball is reset and the level's bricks are rebuilt. |
| Arkanoid.Game.GameOver | main.js:559-586 | Called only once the lives reach 0, as at main.js:128: the ball stops and the game-over state, in which R restarts, begins, so `LivesOk` holds. Everything else is kept. |
| Arkanoid.Game.ResetBallAndBricks | main.js:540-557 | The ball stops and the current level's layout is generated afresh; score, lives and level are kept. |
| Arkanoid.Game.Rebuild | main.js:546-547 | `bricks.clear` followed by `createBricks` (here and again in `winGame` at main.js:627-628) gives the current level's layout, and the game invariant holds again. |
| Arkanoid.Game.Restart | main.js:578-585 | R after game over resets score 0, lives 3, level 1 and speed 200, with the ball out of play and layout 0 rebuilt. |
| Arkanoid.PlayToGameOver | main.js:123-134 | Three balls lost in a row end the game: 0 lives, game over, ball out of play. |
| Arkanoid.ClickAfterGameOver | main.js:181-182 | As written, a click after game over relaunches the ball, and losing it leaves the lives at -1. |
| Arkanoid.ClickAfterGameOverRefused | main.js:467-473 | With the corrected start, a click after game over leaves the ball out of play and the lives at 0. |

The class invariants are `Game.Valid` and `Game.LivesOk`.
- `Game.Valid` holds after every handler. It requires:
  - level at least 1, and the speed reached on that level;
  - a score that is a non-negative multiple of 10;
  - the paddle in [50, 750];
  - the bricks on the current layout's shape, with bombs apart outside the checkerboard.
- `Game.LivesOk` requires lives in [0, 3], game over exactly at 0 lives, and the ball in play only with a life left. Every handler except `StartGameAsWritten` preserves it; `GameOver`, called only at 0 lives, establishes it.

## Left out

- Rendering, textures, texts and colours, brick pixel positions, and the ball's physics are left out. Physics covers motion, bounces, the paddle-angle rule in `hitPaddle` and world bounds. The engine's events appear only as the handler calls they trigger: a collision calls `HitBrick`, and the ball reaching the bottom edge calls `LoseBall`.
- `LoseBall` requires the ball to be in play. Only a moving ball can reach the bottom edge, and the ball moves only after `startGame`.
- The spring brick's new ball direction is not modelled; a spring is scored and removed like a plain brick. It comes from a random angle and the ball's speed, computed in floating point.
- `Math.random()` is a parameter, the stream of integer draws. Each `createBricks` call reads its own stream from index 0.
- The Phaser static group is a map from grid cell to brick kind. Bricks are found by grid cell: a map lookup replaces the scan over the group's children. Two bricks never share a cell.
- `bombPositions` is a set of cells rather than a set of "x,y" strings.
- The pointer's x coordinate and the paddle position are integers; Phaser uses floating point.
- The SPACE handler that `winGame` adds for the next level calls `startGame`, which is `StartGame` here.
- `scene.restart()` is modelled by its effect on the state: create() runs again, with the paddle back at 400 and layout 0 rebuilt.

## Findings

| source | as written | input that shows it | evidently intended | confidence | as-written member | corrected member |
|---|---|---|---|---|---|---|
| main.js:181-182, 467-473 with 123-134 and 559-586 | The SPACE and click handlers that call `startGame` stay registered after `gameOver`, and `startGame` does not check lives. | Lose all three balls, then click and lose the ball again: lives become -1. `lives === 0` never fires again, so the game never ends. | `startGame` does nothing once the game is over; only R starts a new game. | high (not executed) | Arkanoid.ClickAfterGameOver (with Arkanoid.Game.StartGameAsWritten) | Arkanoid.Game.StartGame (preserves `LivesOk`; Arkanoid.ClickAfterGameOverRefused) |
