# Breakout: a verified model of the game core

This project models the core of a browser Breakout game (`src/breakout.js`)
in Dafny. It covers:

- the game object, with its ball, paddle, brick grid, counters and phase flags;
- start-up, which places the ball, lays out the 9 × 5 brick grid and places the paddle;
- one simulation tick: move the ball, evaluate the stage, then run the brick, paddle and border collision checks;
- what a frame does after its tick: show game over, a lost life, the win or the pause, or schedule the next frame;
- the self-scheduling render loop;
- the input handlers: the pause key, continuing after a lost life, the arrow keys and the mouse.

The project has four modules:

- `Config` (`config.dfy`) holds the shipped constants. Examples: an arena of 1280 × 720, a ball of radius 10 at speed 4, brick margin 40, a paddle of 120 × 10 with key step 30, and 3 lives. It also holds the integer ceiling the brick size is computed with.
- `Bricks` (`bricks.dfy`) holds the brick record and the grid layout. It also covers the bookkeeping of one brick-collision pass: which bricks it destroys and how many.
- `Rules` (`rules.dfy`) describes each step as a function on `State`, which is a snapshot of the game object. It also holds:
  - the invariant `Valid`, which every reachable state satisfies;
  - the lemmas that state the game's properties.
- `Game` (`game.dfy`) holds the game object as a class, `GameState`. Its fields are updated in place, as the game does. Most methods are proved to leave `Snapshot()` equal to the matching `Rules` function applied to the old snapshot. There are two kinds of exception. `CheckBrick`, one step of the brick loop, states its effect field by field. `Render`, `StopContinueGame` and `ContinueGameFromCrashedLife` end in a frame, so their new snapshot is `Rules.Tick` applied after the handler's own function. The brick grid is built by the nested loops of the set-up code. The brick check is the same index loop over the grid.

Where the game's behaviour is surprising, the model follows the code:

- The stage is evaluated after the ball moves and before the collisions of the same tick. So "complete" and "game over" are raised one tick after the last brick or the last life is lost.
- Losing the last life clears the crash flag. The next tick then raises game over and can take lives to -1 on the way.
- Arrow-key moves are not clamped. The paddle can overshoot either border by less than one key step.
- A tick is not skipped while the game is paused. Pausing only stops the render loop from scheduling further frames.
- The brick loop runs `Columns * Rows` times, not over the array's length. The invariant makes the two equal.

The game leaves positions and speeds `undefined` until set-up runs. The model's constructor sets them to 0 and then runs the set-up.

## Model

| member | source | states |
|---|---|---|
| Config.CeilDiv | src/breakout.js:62-63 | the result is the ceiling of a / b: (r-1)·b < a ≤ r·b |
| Config.CeilDivUnique | src/breakout.js:62-63 | the ceiling is the only integer with that property |
| Bricks.Layout | src/breakout.js:64-71 | the set-up grid holds Columns × Rows bricks |
| Bricks.LayoutAt | src/breakout.js:64-71 | the brick of column col, row row is at index col·Rows + row, at x = col·(w+margin)+margin, y = row·(h+margin)+margin, with the computed size, not destroyed |
| Bricks.DefaultLayout | src/breakout.js:62-63 | with the shipped configuration the grid has 45 bricks, each 98 wide and 24 high |
| Bricks.StrikeAll | src/breakout.js:136-147 | a pass keeps the number of bricks |
| Bricks.StrikeAllAt | src/breakout.js:136-147 | a pass never moves or resizes a brick; afterwards a brick is destroyed exactly when it was destroyed before or the ball overlaps it |
| Bricks.StrikeAllTally | src/breakout.js:141-145 | a pass raises the number of destroyed bricks by exactly the number of standing bricks it hits |
| Bricks.DestroyedCountBound | src/breakout.js:33-34 | the destroyed count never exceeds the number of bricks |
| Bricks.NoneDestroyed | src/breakout.js:29 | a collection with no destroyed flag set has a destroyed count of 0 |
| Bricks.LayoutUntouched | src/breakout.js:29-71 | a fresh grid has no destroyed brick and a destroyed count of 0 |
| Rules.ResetBallPlacement | src/breakout.js:54-59 | a reset centres the ball horizontally at (640, 670) with speed (4, -4) and changes nothing else |
| Rules.ResetPaddlePlacement | src/breakout.js:74-78 | a reset centres the paddle at x 580, flush with the floor, with speed 30, and changes nothing else |
| Rules.InitialValid | src/breakout.js:3-52 | the state after start-up satisfies the invariant, with the ball at (640, 670), the paddle at 580 and 45 bricks |
| Rules.BrickCollisionEffect | src/breakout.js:127-148 | the brick check keeps the ball and its horizontal speed; it flips the vertical speed once per hit; score and destroyed count rise by the number of hits; nothing else changes |
| Rules.BrickCollisionKeepsTally | src/breakout.js:141-145 | score, destroyed count and the bricks' flags stay in agreement |
| Rules.PaddleCollisionEffect | src/breakout.js:150-160 | the paddle check negates the vertical speed exactly when the ball is over the paddle, and changes nothing else |
| Rules.BorderCollisionEffect | src/breakout.js:102-125 | exactly one border effect applies, in the order left, right, top, bottom: a side wall negates only xSpeed, the ceiling only ySpeed, and the floor takes a life and sets the crash flag only while a life is left |
| Rules.CollideKeeps | src/breakout.js:162-166 | the collision checks never move the ball and never touch the over, complete or pause flags |
| Rules.CollideKeepsBricks | src/breakout.js:162-166 | after the brick check, the paddle and border checks leave the bricks and the destroyed count alone |
| Rules.TickMovesBall | src/breakout.js:176-185 | in every tick the ball moves by exactly its speed |
| Rules.FirstTick | src/breakout.js:176-179 | the first tick takes the ball from (640, 670) to (644, 666) |
| Rules.TickStageFlags | src/breakout.js:168-185 | the stage flags after a tick follow from the counters at the start of the tick (over iff over or lives < 1; complete iff complete or all bricks destroyed with a life left); the pause flag is kept |
| Rules.CompleteRaisedOneTickLate | src/breakout.js:168-185 | a tick that destroys the last brick does not complete the game; the next tick does |
| Rules.LastLifeLost | src/breakout.js:117-174 | losing the last life leaves 0 lives, no crash flag and no game over; the next frame is requested unless the game is complete or paused, and the tick after that raises game over |
| Rules.LifeLost | src/breakout.js:117-123 | losing a life with lives to spare raises the crash flag, and the frame stops to show it |
| Rules.TickMonotone | src/breakout.js:181-185 | a tick costs at most one life, never lowers the destroyed count, never rebuilds or moves a brick, and never clears over or complete |
| Rules.TickPhaseMonotone | src/breakout.js:181-185 | a tick costs at most one life, never clears over or complete, and keeps the pause flag |
| Rules.BorderCollisionPhase | src/breakout.js:102-125 | the border check costs at most one life and touches no phase flag other than the crash flag |
| Rules.TickBricksMonotone | src/breakout.js:127-185 | destroyed bricks stay destroyed, no brick moves, and the count never falls |
| Rules.FrameOutcome | src/breakout.js:272-287 | game over is shown iff the game is over; a lost life iff crashed and not over; complete iff complete, not over and not crashed; the pause iff paused and none of the other three; the next frame is requested iff none of the four flags holds |
| Rules.BrickCollisionValid | src/breakout.js:127-148 | the brick check keeps the invariant |
| Rules.BorderCollisionValid | src/breakout.js:102-125 | the border check keeps the invariant once the stage has seen the lives |
| Rules.StageValid | src/breakout.js:168-179 | moving and evaluating the stage keep the invariant; afterwards a state without lives is over |
| Rules.PaddleCollisionValid | src/breakout.js:150-160 | the paddle check keeps the invariant |
| Rules.TickPreservesValid | src/breakout.js:181-185 | every tick keeps the invariant |
| Rules.ScheduledTickLives | src/breakout.js:117-123 | a tick of a game that is not over leaves at least -1 lives |
| Rules.RunKeepsValid | src/breakout.js:264-334 | the render loop, started in a valid state that is not over, keeps the invariant for any number of frames, and lives never fall below -1 |
| Rules.ContinueKeepsValid | src/breakout.js:285-287 | scheduling the next frame from a valid state keeps the invariant |
| Rules.GameOverAbsorbs | src/breakout.js:272-274 | once over, every later frame shows game over |
| Rules.StopContinueToggles | src/breakout.js:290-297 | the pause key toggles the pause flag exactly on Space when none of complete, over or crashed holds; nothing else changes; a frame runs only when it unpauses |
| Rules.ResumeAfterCrashEffect | src/breakout.js:242-250 | continuing resets paddle and ball and clears the crash flag; bricks, score, lives and the other flags are kept |
| Rules.MouseMove | src/breakout.js:317-327 | after a mouse move the paddle lies inside the arena, and nothing but its x changes |
| Rules.MouseMoveClamps | src/breakout.js:317-327 | after a mouse move the paddle is at the pointer's x, clamped to [0, Width - PaddleWidth] |
| Rules.KeyMoveEffect | src/breakout.js:306-316 | an arrow key moves the paddle by its speed towards its side unless the paddle already touches that border; other keys do nothing; nothing but the paddle's x changes |
| Rules.KeyMoveOvershoots | src/breakout.js:302-310 | key moves are not clamped: from x = 1150 a right arrow puts the paddle's edge 20 pixels past the arena |
| Rules.StopContinueValid | src/breakout.js:290-297 | the pause key keeps the invariant |
| Rules.KeyMoveValid | src/breakout.js:306-316 | arrow keys keep the invariant |
| Rules.MouseMoveValid | src/breakout.js:317-327 | mouse moves keep the invariant |
| Rules.ResumeAfterCrashValid | src/breakout.js:242-250 | continuing after a crash keeps the invariant |
| Game.GameState.constructor | src/breakout.js:3-91 | the object after initialisation and set-up equals Rules.Initial() and is valid |
| Game.GameState.SetupBallState | src/breakout.js:54-59 | the new state is the ball reset of the old one |
| Game.GameState.SetupBricksState | src/breakout.js:61-72 | the nested loops append exactly the layout to the bricks; nothing else changes |
| Game.GameState.SetupPaddleState | src/breakout.js:74-78 | the new state is the paddle reset of the old one |
| Game.GameState.DetectBorderGameSpaceCollision | src/breakout.js:102-125 | the new state is Rules.BorderCollision of the old one |
| Game.GameState.DetectBrickCollision | src/breakout.js:127-148 | the index loop leaves the state equal to Rules.BrickCollision of the old one |
| Game.GameState.CheckBrick | src/breakout.js:137-146 | one loop step destroys brick `index` exactly when the ball hits it standing; it then negates ySpeed and adds one to score and count; nothing else changes |
| Game.GameState.DetectPaddleCollision | src/breakout.js:150-160 | the new state is Rules.PaddleCollision of the old one |
| Game.GameState.DetectCollision | src/breakout.js:162-166 | the three checks run in order: brick, paddle, border |
| Game.GameState.UpdateStageGameState | src/breakout.js:168-174 | the new state is Rules.UpdateStage of the old one |
| Game.GameState.UpdateBallState | src/breakout.js:176-179 | the ball moves by its speed |
| Game.GameState.UpdateGameState | src/breakout.js:181-185 | one tick: the new state is Rules.Tick of the old one |
| Game.GameState.Render | src/breakout.js:264-288 | a frame ticks, returns the decision Rules.FrameOutcome of the new state, and keeps the invariant |
| Game.GameState.StopContinueGame | src/breakout.js:290-297 | the pause key: an unpause runs a frame; otherwise only the flag changes; the invariant is kept |
| Game.GameState.ContinueGameFromCrashedLife | src/breakout.js:242-250 | on Space: reset, clear the crash and run a frame; any other key does nothing; the invariant is kept |
| Game.GameState.MovePaddleByKey | src/breakout.js:306-316 | the new state is Rules.KeyMove of the old one, and the invariant is kept |
| Game.GameState.MovePaddleByMouse | src/breakout.js:317-327 | the new state is Rules.MouseMove of the old one; the paddle lies inside the arena; the invariant is kept |

## Left out

- Drawing is not modelled, because it changes no game state: clearing the canvas, the ball, bricks, paddle, score, lives and the message texts with their fonts and colours (`src/breakout.js:80-84`, `93-100`, `187-240`, `252-262`).
- The browser event plumbing is not modelled, because handlers become methods taking the decoded input:
  - listener registration and removal;
  - `event.code`/`event.key` strings, decoded into `isSpace` and `KeyPress`;
  - the mouse event's x, decoded into an integer.
- `requestAnimationFrame`/`cancelAnimationFrame` and the stored frame id are not modelled. The loop is modelled by the function `Rules.Run`, bounded by a number of frames. `Render` returns the decision, and the caller would schedule the next frame.
- The crash handler can be registered again on every crash. This listener bookkeeping is not modelled, and neither is the order in which several keydown listeners see one key. The model applies each handler to a state.
- The template brick record's `width`/`height` fields are not modelled. The set-up stores the computed size there, but every brick carries its own copy.
- The canvas size is not modelled separately from the configured arena size, which it is set to.
- `Math.PI` and floating point are not modelled. Every quantity the core computes is an integer under the shipped configuration. The brick sizes come from an exact integer ceiling.
- Rules.Run: bounded by `frames`. It does not model a loop that never stops.
- Rules.RunKeepsValid: covers one render loop only. The game cancels frames through a field it never sets (`src/breakout.js:273-283`), so a pending frame is never cancelled. Pausing and then unpausing before that frame runs starts a second loop. With two loops, the two ticks after the last life is lost can take lives to -2, so the lives ≥ -1 bound holds only for a single loop.
