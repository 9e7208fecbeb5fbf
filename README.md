# Breakout game state, modelled in Dafny

`nap.py` is a single-screen Breakout game on pygame: a ball bounces around an
800 x 600 arena, a paddle near the bottom deflects it, and a 5 x 10 grid of
bricks is cleared for 10 points each, with three lives. This project models the
game-state machine under the drawing and event glue: the `Ball`, `Paddle` and
`Brick` entities, `Game.reset_game` and `Game.create_bricks`,
`Game.handle_collisions`, and the per-frame update and restart gating of
`Game.run`.

The model has two layers.

- Classes `Ball`, `Paddle`, `Brick` and `Game` mirror the source's objects. Their
  methods update fields step by step as the source does. `Game` keeps the bricks
  as a `seq<Brick>` and removes the hit brick from it.
- Values `BallState` and `World` with pure functions (`Moved`, `Launch`,
  `Stepped`, `Collisions`, `Step`, `RunFrames`) give each method its
  specification. Every mutating method ensures that its new state is that
  function of its old state. The game's rules are proved as lemmas about those
  functions.

In the value layer a brick is named by its grid cell, `row * 10 + column`, in
list order. `Game` keeps these cells as a ghost field tied to the brick objects
by its invariant `Valid`.

Facts about the code worth knowing:

- The paddle is not clamped to `[0, 700]`. `Paddle.move` tests `x > 0` or
  `x < 700` before stepping 8, so it can reach -2 and 702.
  `PaddleModel.LeavesScreenFromStart` proves this from the start position 350,
  and the band that does hold is proved as well.
- A paddle hit can give a horizontal speed of up to 8.4 in magnitude (strictly
  less), not just 7. The ball's box overlaps the paddle while the ball's centre
  is up to 60 from the paddle's centre. `Rules.RimHitExceedsScale` gives a hit
  faster than 7, and `Rules.DeflectionBounded` the bound.
- Bricks are scanned in creation order. The first visible brick that overlaps
  the ball's box is removed.

External inputs are parameters. The outcome of `random.choice([-1, 1])` is a
`bool`, true for +1. A `Frame` carries everything one pass of the loop reads:

- the queued events (QUIT, a key press of SPACE or ESC, anything else);
- whether a left key (LEFT or A) and a right key (RIGHT or D) is held;
- the random direction for a restart;
- the random direction for a relaunch after a lost life.

## Model

| member | source | states |
|---|---|---|
| BallModel.Moved | nap.py:30-40 | the position advances by exactly the velocity; both speed magnitudes are unchanged; speed_x is reversed exactly in the side-wall zone (x <= 10 or x >= 790 after the step), speed_y exactly at the ceiling (y <= 10); there is no floor |
| BallModel.Launch | nap.py:45-49 | the relaunched ball is at (400, 300) with speed_y = -5 and speed_x = +5 or -5 according to the random choice, whatever came before |
| BallModel.LaunchSpeedsBounded | nap.py:45-49 | a launched ball has vertical speed of magnitude 5 and horizontal speed below 8.4 |
| BallModel.MovedSpeedsBounded | nap.py:30-40 | a step of motion keeps those speed bounds |
| BallModel.ReflectionTurnsInward | nap.py:34-40 | a ball moving into the left wall, the right wall or the ceiling leaves it moving away from it |
| BallModel.Ball.constructor | nap.py:22-28 | a new ball is at the given centre with radius 10, moving up at 5 and sideways at 5 in the chosen direction |
| BallModel.Ball.Move | nap.py:30-40 | the ball's new state is `Moved` of its old state |
| BallModel.Ball.Reset | nap.py:45-49 | the ball's new state is `Launch` of the random choice, independent of the old state |
| PaddleModel.Stepped | nap.py:60-64 | the paddle moves by exactly 8 or not at all; left exactly when the direction is "left" and x > 0, right exactly when it is "right" and x < 700; any other direction changes nothing |
| PaddleModel.PaddleRect | nap.py:69-70 | the paddle's rectangle has its left edge at x, its top at 550 and size 100 x 15 |
| PaddleModel.StartReachable | nap.py:52-58 | the start position 350 is among the reachable positions |
| PaddleModel.SteppedReachable | nap.py:55-64 | every step keeps the paddle on 350 plus a multiple of 8, within [-2, 702] |
| PaddleModel.SteppedWithinBand | nap.py:60-64 | every step keeps -8 < x < 708 |
| PaddleModel.RepeatedLeft | nap.py:61-62 | n left steps move by exactly 8 n while the guard held before the last step |
| PaddleModel.RepeatedRight | nap.py:63-64 | n right steps move by exactly 8 n while the guard held before the last step |
| PaddleModel.LeavesScreenFromStart | nap.py:55-64 | from 350, 44 left steps reach -2 and 44 right steps reach 702, so the paddle is not clamped to [0, 700] |
| PaddleModel.Paddle.constructor | nap.py:52-58 | a new paddle is centred at x = 350 (y, width, height and speed are constants) |
| PaddleModel.Paddle.Move | nap.py:60-64 | the paddle's new x is `Stepped` of its old x; y never changes |
| PaddleModel.Paddle.GetRect | nap.py:69-70 | the rectangle returned is the paddle's 100 x 15 box at (x, 550) |
| BrickModel.CellOf | nap.py:120-123 | the brick created at row r, column c is cell 10 r + c, and that cell gives back r and c |
| BrickModel.CellsDisjoint | nap.py:107-123 | two different grid cells never overlap |
| BrickModel.CellInsideScreen | nap.py:107-123 | every cell lies within [0, 800] horizontally and within [0, 170] vertically |
| BrickModel.Brick.constructor | nap.py:73-80 | a new brick is a visible 70 x 20 rectangle at (x, y) with the given colour |
| BrickModel.CellRect | nap.py:120-123 | cell k is the 70 x 20 brick rectangle at column k % 10, row k / 10 of the grid |
| BrickModel.CellColor | nap.py:118-124 | every cell of the grid takes its row's colour: red, yellow, green, blue and orange from the top row down |
| Rules.BallBox | nap.py:130-135 | the ball's box is the 20 x 20 square centred on the ball |
| Rules.Deflection | nap.py:140-141 | the new horizontal speed is negative exactly for a hit left of the paddle's centre and positive exactly for one right of it |
| Rules.RimHitExceedsScale | nap.py:137-141 | a ball 59 right of the paddle's centre still overlaps the paddle and leaves faster than 7 |
| Rules.BrickStage | nap.py:144-150 | the brick list is unchanged exactly when no brick overlaps the box, and then nothing changes; otherwise one brick fewer, 10 more points and speed_y reversed; the position, speed_x, paddle, lives and flags never change |
| Rules.LifeStage | nap.py:153-158 | a ball on screen changes nothing; a ball below 600 costs exactly one life, then the ball is relaunched if lives remain, otherwise game_over is set and the ball stays; bricks, score, win and paddle never change |
| Rules.WinStage | nap.py:161-162 | the win flag is set exactly when the list is empty (never cleared), and nothing else changes |
| Rules.Collisions | nap.py:127-162 | handle_collisions removes at most one brick, adds 10 points per brick removed, costs at most one life, never moves the paddle, and win is set after the call exactly when it was already set or no bricks are left |
| Session.HandleEvent | nap.py:168-174 | the loop goes on exactly when it did and the event is neither QUIT nor ESC; the session becomes a fresh one exactly on SPACE in game over or win, and is otherwise unchanged |
| Session.Events | nap.py:167-174 | the events of a frame either leave the session as it was or replace it with a fresh one |
| Session.MovePaddle | nap.py:178-182 | the paddle moves at most 8 either way; without a key held it stays; with both held, away from the edges, the two steps cancel |
| Session.Physics | nap.py:176-186 | game over and win freeze the session; at most one brick is removed per frame, and the score rises by 10 for it |
| Session.Step | nap.py:166-186 | the loop goes on after a frame exactly when no QUIT and no ESC was queued in it |
| Session.RunFrames | nap.py:164-186 | the loop never runs more frames than the script holds |
| Rules.CentreHitIsVertical | nap.py:140-141 | a hit at the paddle's centre gives speed_x = 0 |
| Rules.LeftEdgeHit | nap.py:140-141 | a hit with the ball's centre over the paddle's left edge gives speed_x = -7 |
| Rules.PaddleBounce | nap.py:137-141 | only when the ball's box overlaps the paddle and speed_y > 0: speed_y is reversed (now upward) and speed_x becomes the offset-based deflection; otherwise the ball is untouched; the position never changes |
| Rules.DeflectionBounded | nap.py:130-141 | a ball overlapping the paddle gets a deflection below 8.4 in magnitude |
| Rules.PaddleBounceSpeedsBounded | nap.py:137-141 | the paddle bounce keeps the ball's speed bounds |
| Rules.FirstHit | nap.py:144-145 | the index returned is that of the first brick in list order overlapping the box, or the list length when none does |
| Rules.FirstHitUnique | nap.py:144-150 | that first-hit index is the only index with the first-hit property |
| Rules.CollisionsRemoveFirstHit | nap.py:144-150 | the brick list is unchanged exactly when no brick overlaps the ball's box; otherwise exactly one brick, the first overlapping one in list order, is removed and the rest keep their order |
| Rules.CollisionsScore | nap.py:144-148 | the score rises by exactly 10 when a brick is removed and is otherwise unchanged |
| Rules.CollisionsBrickReversesBall | nap.py:137-149 | for a ball on screen, or one that falls with its last life (so it is not relaunched), the ball's vertical speed after the call is the post-bounce one, reversed exactly when a brick was removed |
| Rules.CollisionsLives | nap.py:153-158 | lives are untouched while y <= 600; when y > 600 exactly one life is lost, and the ball is relaunched if lives remain, otherwise game_over is set and the ball is not moved |
| Rules.CollisionsWin | nap.py:161-162 | win is set exactly when the list is empty after the call (and never cleared); the paddle is not moved |
| Rules.BricksPairwiseDisjoint | nap.py:107-125 | the remaining bricks never overlap one another |
| Rules.TwoBricksOneHit | nap.py:144-150 | a ball whose box spans two adjacent bricks removes only the first of them, and the score rises by 10 |
| Rules.OrderedCellsGrow | nap.py:107-125 | in a strictly increasing list of grid cells, the k-th cell is at least k |
| Rules.OrderedCellsFit | nap.py:107-125 | so there are never more than 50 bricks |
| Rules.RemoveKeepsOrdered | nap.py:147 | removing one brick keeps the cells distinct and in creation order |
| Rules.InvScore | nap.py:144-162 | under the session invariant the score is a multiple of 10 within [0, 500], and it is 500 exactly when the game is won |
| Rules.NoBrickHitBelowScreen | nap.py:144-153 | a ball below the screen overlaps no brick |
| Rules.AllCells | nap.py:120-125 | a fresh grid has all 50 cells, in creation order |
| Rules.NewSession | nap.py:97-105 | reset_game gives score 0, 3 lives, both flags false and 50 bricks, and satisfies the session invariant |
| Rules.BrickStageKeeps | nap.py:144-150 | the brick loop keeps score + 10 times the brick count at 500 and removes at most one brick, and only for a ball on screen |
| Rules.CollisionsKeepInv | nap.py:127-162 | while in play, handle_collisions keeps the session invariant: score + 10 times the brick count is 500, lives within [0, 3] with game_over exactly at 0 lives, win exactly when no bricks remain, never both flags, ball speeds and paddle position in range |
| Session.EventsIgnoredWhilePlaying | nap.py:170-172 | outside a terminal state no event changes the session; SPACE is ignored |
| Session.EventsWithoutRestart | nap.py:167-174 | without a SPACE key press the events change nothing |
| Session.EventsRestart | nap.py:171-172 | from game over or win, a SPACE anywhere in the queue starts a fresh session, and later SPACEs are ignored |
| Session.EventsRunning | nap.py:167-174 | the loop goes on exactly when neither QUIT nor ESC was queued |
| Session.RestartOnlyFromTerminal | nap.py:171-172 | the events yield a fresh session when the state was terminal and SPACE was pressed, and otherwise leave it exactly as it was |
| Session.TerminalFrameFrozen | nap.py:176-186 | in game over or win, a frame without SPACE changes nothing: ball, paddle, bricks, score and lives all keep their values |
| Session.MovePaddleReachable | nap.py:178-182 | the held keys keep the paddle among its reachable positions |
| Session.StepKeepsInv | nap.py:166-186 | every frame keeps the session invariant |
| Session.RunKeepsInv | nap.py:164-186 | every run of frames starting from a state satisfying the invariant keeps it, so every run from reset_game does |
| Session.StepScore | nap.py:176-186 | a frame without a restart raises the score by 10 per brick removed, at most one brick: the score never decreases |
| Session.LastLifeEndsGame | nap.py:153-158 | with one life left, a ball falling below the screen sets game_over with 0 lives, not win, and the ball stays where it fell |
| Session.Game.constructor | nap.py:88-95 | a new game is a fresh session as reset_game makes it |
| Session.Game.ResetGame | nap.py:97-105 | the new state is `NewSession` of the random choice, built from a fresh ball, a fresh paddle and fresh bricks |
| Session.Game.CreateBricks | nap.py:107-125 | 50 new, distinct, visible bricks are appended row by row, each on its grid cell with its row's colour; nothing else changes |
| Session.Game.FirstVisibleHit | nap.py:144-150 | the index returned is that of the first brick in the list that is visible and overlaps the box, or the length when none is |
| Session.Game.RemoveBrick | nap.py:146-148 | the brick is hidden (its `visible` flag is cleared) and removed from the list, the others keep their order, and the score rises by 10 |
| Session.Game.BounceOffPaddle | nap.py:137-141 | the ball's new state is `PaddleBounce` of the old one |
| Session.Game.HitFirstBrick | nap.py:144-150 | the new session is the brick loop applied to the old one |
| Session.Game.CheckLifeLost | nap.py:153-158 | the new session is the bottom check applied to the old one |
| Session.Game.HandleCollisions | nap.py:127-162 | the new session is `Collisions` of the old one, and the object invariant is kept |
| Session.Game.HandleEvents | nap.py:167-174 | the new session and the running flag are those of the event loop |
| Session.Game.Update | nap.py:176-186 | the new session is the gated update of the old one |
| Session.Game.Tick | nap.py:166-186 | the new session and running flag are `Step` of the old session, and the session invariant is kept |
| Session.Game.Run | nap.py:164-186 | the final session and the number of frames run are `RunFrames` of the script |

## Left out

- Drawing: `Ball.draw`, `Paddle.draw`, `Brick.draw`, the screen fill, the score and lives text, and the end messages (nap.py:42-43, 66-67, 82-85, 188-225). These are pygame output only.
- pygame set-up and tear-down: `pygame.init`, the window, the caption, the fonts, the clock, the 60 FPS tick, `pygame.quit` and `sys.exit`. These are foreign library calls and process control.
- Event and key polling are inputs: a `Frame` holds the queued events and the held keys. `Game.Run` runs a finite script of frames, not an endless loop.
- `random.choice` is a `bool` parameter, in `Frame` for the two places a frame can launch the ball.
- Python floating point: coordinates and speeds are exact reals. pygame's Rect keeps integer coordinates and truncates the ball's float box. The model keeps the box exact. The paddle and brick overlap tests can therefore differ from the game's by less than one pixel. The wall and ceiling tests compare the ball's centre directly and are not affected.
- Rect.colliderect also refuses rectangles of zero width or height. Every rectangle here has a positive size, so that case is not modelled.
- RGB colour tuples are a five-valued row tag `Color`. A brick's default colour (GREEN) is not modelled, because the game always passes one.
- The `visible` flag is cleared on the brick being removed, as in the source. Beyond that, the only property proved about it is that every brick in the list is visible.
- `list.remove` removes the first element equal to the hit brick. The bricks are distinct objects, so that element is the hit brick itself. The model removes it by index.
- No bound on the ball's position is stated. The ball leaves through the bottom by design, and after a paddle hit next to a wall it can stay in the wall zone while its horizontal speed flips on every frame.
