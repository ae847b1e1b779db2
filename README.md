# Snake game: a verified model of the game logic

This project models the game logic of a single-player snake game. The snake
moves on a 25 × 20 board of 40-pixel cells (a 1000 × 800 window). It grows by
eating an apple. It dies when its head hits its own body or leaves the window.
The game then pauses and restarts at once from a fresh snake and apple, and
Enter resumes play.

The model follows `snakegame.py` module by module. The source's three classes
(`Snake`, `Apple` and `Game`) are Dafny classes. The other modules state its rules as values:

- `Grid` (`grid.dfy`) holds the settings: `SIZE`, `WINDOW_W`, `WINDOW_H`, the
  four headings and the box test `is_collision`. It also holds the wall test
  and the cell ranges that `Apple.move` draws from.
- `SnakeModel` (`snake.dfy`) holds the class `Snake`. Its fields are the
  parallel coordinate lists (as `seq<int>` fields that the methods reassign),
  `length` and `direction`. `Walk` keeps the source's tail-to-head loop.
  `IncreaseLength` appends a copy of the tail. The pure functions `Shift` and
  `Grow` specify both methods.
- `AppleModel` (`apple.dfy`) holds the class `Apple`. Its `Move` takes the
  drawn column and row as parameters instead of calling `random.randint`.
- `Collisions` (`collisions.dfy`) gives the rules of one tick as values. A
  `World` is the snake's lists and heading plus the apple's position. `Check` is
  `check_collisions`: eat, then self collision from index 2, then wall. `PlayRule`
  is `play`. The self-collision loop is the method `FindSelfCollision`.
- `Controller` (`controller.dfy`) gives the loop of `Game.run` as values.
  `ApplyEvents` handles the events of one tick: the `pause`/`running` flags and
  the reversal guard. `TickRule` is one iteration of the loop, and `RunRule` is
  the loop over a finite list of ticks.
- `SnakeGame` (`game.dfy`) holds the class `Game`. It owns a `Snake` and an
  `Apple` and replaces both on `Reset`. Its methods `CheckCollisions`, `Play`,
  `HandleEvents`, `Tick` and `Run` are each proved equal to the matching value
  rule. The lemmas about those rules therefore hold of the objects as well.

The exceptions that `check_collisions` raises become an `Outcome`:
`Continue | Died(SelfCollision | WallCollision)`. The sound cues it asks for
("ding" and "crash") are returned as a list of `Cue`s.

Where an idealised account of the game would differ from the code, the model
follows the code:

- A death resets the snake and the apple immediately (`snakegame.py:204-206`).
  The reset does not wait for Enter. Enter only clears `pause`.
- The collision test is the half-open box test of `snakegame.py:123`, not cell
  equality. The contract of `IsCollision` proves the two agree on cell-aligned
  coordinates. `SurvivingPlayStaysOnBoard` and `RunStaysOnBoard` prove that every
  coordinate in the game is cell-aligned at the top of each iteration.
- The reversal guard applies only while not paused (`snakegame.py:190`).
- The guard compares each key with the heading as already changed by earlier
  keys of the same tick. It does not act on "the last key per axis". So two keys
  in one tick can reverse the snake (`TwoKeysReverse`).
- After Escape or window close the current iteration still plays
  (`QuitEndsAfterCurrentTick`).

## Model

| member | source | states |
|---|---|---|
| Grid.StepIsOneCell | snakegame.py:66-74 | the step table `DeltaX`/`DeltaY` of the head update: a walk moves the head by exactly one cell along one axis: left is −x, right +x, up −y, down +y; opposite headings move in opposite senses |
| Grid.Opposite | snakegame.py:191-198 | the heading each arrow key may not reverse is a different heading whose step is the exact reverse on both axes |
| Grid.IsCollision | snakegame.py:121-123 | on coordinates that are multiples of SIZE, the box test holds iff the two positions are equal |
| Grid.CollisionIsABoxNotEquality | snakegame.py:123 | off the grid the test is a half-open box, not equality, and not symmetric |
| Grid.OffBoard | snakegame.py:164-168 | on coordinates that are multiples of SIZE, a position passes the wall test iff it is a cell inside the window |
| Grid.OffBoardBoundaries | snakegame.py:164-168 | the wall test spares the first and last cell of each axis and flags one cell beyond either edge |
| Grid.CellPosition | snakegame.py:38-41 | a column in 0..24 and a row in 0..19 give a position that is a multiple of SIZE inside the window |
| Grid.EveryCellIsDrawable | snakegame.py:38-41 | every on-grid position inside the window is the position of a column and row that the draw can produce |
| SnakeModel.Shift | snakegame.py:61-64 | after the body shift the length is the same, segment i ≥ 1 holds the old segment i−1, and the head holds its new position |
| SnakeModel.Grow | snakegame.py:80-84 | growth adds exactly one segment, keeps every earlier segment and repeats the old tail |
| SnakeModel.WalkTimesMovesHead | snakegame.py:66-74 | after n walks in one heading the head has moved n cells along that heading's axis and not along the other |
| SnakeModel.ThreeWalksDown | snakegame.py:49-52 | from the start cell (5, 5) heading down, three walks put the head on (5, 8) |
| SnakeModel.Snake.constructor | snakegame.py:45-52 | a new snake has one segment on (5·SIZE, 5·SIZE), heading down |
| SnakeModel.Snake.MoveLeft | snakegame.py:55 | sets the heading to left and changes nothing else |
| SnakeModel.Snake.MoveRight | snakegame.py:56 | sets the heading to right and changes nothing else |
| SnakeModel.Snake.MoveUp | snakegame.py:57 | sets the heading to up and changes nothing else |
| SnakeModel.Snake.MoveDown | snakegame.py:58 | sets the heading to down and changes nothing else |
| SnakeModel.Snake.Walk | snakegame.py:60-74 | the loop leaves length and heading unchanged, keeps both lists at `length` entries, and leaves the lists equal to the shifted body with the head stepped one cell |
| SnakeModel.Snake.IncreaseLength | snakegame.py:80-84 | raises `length` by one and appends a copy of the last segment to both lists |
| AppleModel.Apple.constructor | snakegame.py:26-31 | a new apple is on (3·SIZE, 3·SIZE), on the grid |
| AppleModel.Apple.Move | snakegame.py:36-41 | the apple moves to the drawn column and row, always on the grid; nothing keeps it off the snake |
| Collisions.Walked | snakegame.py:60-74 | a walk keeps the length, the heading and the apple, and moves the head one step along the heading |
| Collisions.WalkedFollows | snakegame.py:61-64 | after a walk each segment from index 1 on holds the old position of the segment in front of it |
| Collisions.WalkTimesIsIteratedWalked | snakegame.py:60-74 | n + 1 walks in one heading are n walks followed by one more walk of the world, so the repeated walk is the same walk |
| Collisions.Eats | snakegame.py:153 | with head and apple on grid cells, eating is the head standing exactly on the apple's cell |
| Collisions.SelfHit | snakegame.py:159-162 | only a snake of at least three segments can hit itself, since the test starts at index 2 |
| Collisions.Check | snakegame.py:151-168 | the check keeps the head and the heading, grows the snake by one exactly when it eats, lets play continue only with the head inside the window and no body hit, and asks for "ding" iff it ate and "crash" iff it died |
| Collisions.PlayRule | snakegame.py:170-173 | a play step moves the head one step along the heading and continues only if that head is inside the window |
| Collisions.CheckCases | snakegame.py:151-168 | eating grows the snake by a copy of its tail and moves the apple to the drawn cell; otherwise nothing changes; the outcome is a self collision iff a segment from index 2 on is under the head; it is a wall collision iff there is no self collision and the head is outside the window; the cues are "ding" on eating, then "crash" on death |
| Collisions.FindSelfCollision | snakegame.py:159-162 | the loop reports a hit iff some segment from index 2 to length−1 collides with the head |
| Collisions.SelfHitIgnoresNeck | snakegame.py:159-162 | the self-collision verdict does not depend on segment 1 |
| Collisions.NeckNeverUnderHeadAfterWalk | snakegame.py:60-74 | on aligned coordinates, right after a walk segment 1 is never under the head, so skipping it loses no collision |
| Collisions.WalkKeepsAligned | snakegame.py:60-74 | a walk keeps every coordinate a multiple of SIZE |
| Collisions.SelfHitOnGrid | snakegame.py:159-162 | on aligned coordinates, self collision is equality of the head with some segment from index 2 on |
| Collisions.InitialOnBoard | snakegame.py:125-127 | a fresh snake and apple lie on the board |
| Collisions.SurvivingPlayStaysOnBoard | snakegame.py:170-173 | a tick the snake survives leaves every segment and the apple on an on-grid cell inside the window |
| Controller.ApplyEvent | snakegame.py:180-198 | no single event sets `pause` or `running`; the heading changes only on an arrow key, while not paused, to that key's heading, and never to the reverse of the old heading |
| Controller.ApplyEvents | snakegame.py:180-198 | the events of a tick never set `pause` or `running`; the heading changes only when not paused at the end and only to the heading of an arrow key among the events |
| Controller.ArrowKeyRule | snakegame.py:190-198 | an arrow key leaves the flags alone; it is applied unless the game is paused or the key is the reverse of the current heading |
| Controller.EventsPauseRule | snakegame.py:184-190 | no event sets `pause`; after a tick's events the game is paused iff it was paused and no Enter came |
| Controller.EventsRunningRule | snakegame.py:180-186 | the loop keeps running iff it was running and neither window close nor Escape came |
| Controller.PausedIgnoresArrows | snakegame.py:190-198 | while paused and without Enter, no key changes the heading |
| Controller.TwoKeysReverse | snakegame.py:191-198 | heading left, Right alone is ignored, but Up then Right in one tick leaves the snake heading right |
| Controller.RunRule | snakegame.py:179-209 | a run always ends with a valid snake, and is still running at the end only if it was running at the start |
| Controller.RunRuleAt | snakegame.py:179-209 | a running loop with ticks left from index n plays tick n and then runs the ticks after it |
| Controller.RunRuleUnfold | snakegame.py:179-209 | one iteration of the loop, seen from the whole run, appends that tick's cues and continues from its state |
| Controller.TickRule | snakegame.py:179-206 | every iteration leaves a snake with at least one segment and equal-length lists, never sets `running`, asks for at most two cues, and when it ends paused either emitted nothing or was reset to the initial world |
| Controller.PausedTickIsFrozen | snakegame.py:200-202 | a paused tick without Enter does not walk, turn or emit a cue |
| Controller.DeathPausesAndResets | snakegame.py:200-206 | a death pauses the game and resets it at once to the initial snake and apple, with "crash" as the last cue |
| Controller.TickStaysOnBoard | snakegame.py:179-209 | every iteration keeps every segment and the apple on the board |
| Controller.RunStaysOnBoard | snakegame.py:179-209 | at the end of any run every segment and the apple are on the board |
| Controller.QuitEndsAfterCurrentTick | snakegame.py:179-209 | a run whose first tick sees Escape or window close plays that tick and then stops |
| Controller.QuietTickDown | snakegame.py:200-202 | a tick without input moves a lone head in column 5 heading down, with the apple on (3, 3) and a free row below it, one row down; it eats nothing, emits no cue and keeps playing |
| Controller.ThreeQuietTicks | snakegame.py:179-209 | from a new game, three ticks without input reach head (5, 8), eat nothing and keep playing |
| Controller.WallDeathThenRestart | snakegame.py:200-206 | a head on the bottom row heading down dies on the next tick: reset and paused at once; the next tick does nothing; Enter resumes play from the initial world |
| SnakeGame.Game.constructor | snakegame.py:95-96 | a new game holds a new snake and apple in the initial state |
| SnakeGame.Game.Reset | snakegame.py:125-127 | the snake and the apple are replaced by new ones in the initial state |
| SnakeGame.Game.CheckCollisions | snakegame.py:151-168 | the new snake and apple, the outcome and the cues are those of `Check` on the old state |
| SnakeGame.Game.Play | snakegame.py:170-173 | the new state, outcome and cues are those of walk-then-check on the old state |
| SnakeGame.Game.HandleEvents | snakegame.py:180-198 | the flags and heading after the events are those of `ApplyEvents`, and nothing else changes |
| SnakeGame.Game.Tick | snakegame.py:180-206 | the new state, flags and cues of one iteration are those of `TickRule` |
| SnakeGame.Game.Run | snakegame.py:175-209 | starting running and not paused, the final state, flags and cues are those of `RunRule` over the inputs |

## Left out

- Drawing is not modelled: `draw`, `draw_everything`, `display_score`, `show_game_over`, fonts and `display.flip`. The game-over screen is the caller's business.
- Image loading, `pygame.init`, the mixer, window creation and the asset paths (`snakegame.py:13-22`, `89-93`) are not modelled.
- Audio playback is not modelled (`play_background_music`, `play_sound`). Their failures are swallowed in the source. The model only returns which cue, "ding" or "crash", is asked for.
- `clock.tick(10)` pacing and `pygame.event.get()` polling are not modelled. Each iteration's events are an input list.
- `random.randint` is not modelled. Each tick's input carries the column and row that `Apple.move` would draw. They are required to lie in its inclusive ranges 0..24 and 0..19.
- SnakeGame.Game.Run: the source loop has no bound and runs until Escape or window close. The model runs over a finite list of tick inputs and stops early when the source would.
- The exception mechanism is replaced by an `Outcome` value. The model does not capture that the source's `except Exception` would also catch errors raised while drawing.
- The heading is a string in the source. The model uses a four-valued datatype, because the heading is set only by `Snake.__init__` (`snakegame.py:49`) and the `move_*` methods (`snakegame.py:55-58`), always to one of the four literals "left", "right", "up" and "down".
- `app.py` is a launcher page that starts the game process. It has no game logic and is not part of this model.
