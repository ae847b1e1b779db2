/** The game object: it owns one snake and one apple, replaces both on reset,
    runs the checks of one tick and the controller loop. Every method is
    proved against the value-level rules of `Collisions` and `Controller`. */
module SnakeGame {
  import opened Grid
  import opened SnakeModel
  import opened AppleModel
  import opened Collisions
  import opened Controller

  class Game {
    var snake: Snake
    var apple: Apple
    ghost var Repr: set<object>

    ghost predicate Valid()
      reads this, Repr
    {
      Repr == {this, snake, apple} && snake.Valid()
    }

    /** What the game holds, as a value. */
    ghost function State(): (w: World)
      reads this, Repr
      requires Valid()
      ensures w.Valid()
    {
      World(snake.xs, snake.ys, snake.direction, apple.x, apple.y)
    }

    /** A new game holds a new snake and a new apple. */
    constructor ()
      ensures Valid() && fresh(Repr)
      ensures State() == Initial
    {
      snake := new Snake();
      apple := new Apple();
      Repr := {this, snake, apple};
    }

    /** Replace the snake and the apple by new ones. */
    method Reset()
      requires Valid()
      modifies this
      ensures Valid() && fresh(Repr - old(Repr))
      ensures fresh(snake) && fresh(apple)
      ensures State() == Initial
    {
      snake := new Snake();
      apple := new Apple();
      Repr := {this, snake, apple};
    }

    /** The three checks of one tick in their order. Eating grows the snake and
        moves the apple to column `col`, row `row` (the caller's draw); a
        collision is reported as `Died` instead of being raised. */
    method CheckCollisions(col: int, row: int) returns (outcome: Outcome, cues: seq<Cue>)
      requires Valid()
      requires 0 <= col <= MAX_COL && 0 <= row <= MAX_ROW
      modifies Repr
      ensures Valid() && Repr == old(Repr)
      ensures Checked(State(), outcome, cues) == Check(old(State()), col, row)
    {
      cues := [];
      if IsCollision(snake.xs[0], snake.ys[0], apple.x, apple.y) {
        snake.IncreaseLength();
        apple.Move(col, row);
        cues := cues + [Ding];
      }

      var hit := FindSelfCollision(snake.xs, snake.ys);
      if hit {
        cues := cues + [Crash];
        return Died(SelfCollision), cues;
      }

      var headX, headY := snake.xs[0], snake.ys[0];
      if headX < 0 || headX >= WINDOW_W || headY < 0 || headY >= WINDOW_H {
        cues := cues + [Crash];
        return Died(WallCollision), cues;
      }
      outcome := Continue;
    }

    /** One play step: walk, then check. */
    method Play(col: int, row: int) returns (outcome: Outcome, cues: seq<Cue>)
      requires Valid()
      requires 0 <= col <= MAX_COL && 0 <= row <= MAX_ROW
      modifies Repr
      ensures Valid() && Repr == old(Repr)
      ensures Checked(State(), outcome, cues) == PlayRule(old(State()), col, row)
    {
      snake.Walk();
      outcome, cues := CheckCollisions(col, row);
    }

    /** The event loop of one iteration of `run`: the flags and the snake's
        heading after the polled events. Nothing else changes. */
    method HandleEvents(events: seq<Event>, pause0: bool, running0: bool) returns (pause: bool, running: bool)
      requires Valid()
      modifies snake
      ensures Valid()
      ensures State() == old(State()).(dir := snake.direction)
      ensures Controls(pause, running, snake.direction)
           == ApplyEvents(events, Controls(pause0, running0, old(snake.direction)))
    {
      pause, running := pause0, running0;
      var i := 0;
      while i < |events|
        invariant 0 <= i <= |events|
        invariant Valid() && State() == old(State()).(dir := snake.direction)
        invariant Controls(pause, running, snake.direction)
               == ApplyEvents(events[..i], Controls(pause0, running0, old(snake.direction)))
      {
        match events[i] {
          case Quit =>
            running := false;
          case OtherEvent =>
          case KeyDown(key) =>
            if key == Escape {
              running := false;
            } else if key == Return {
              pause := false;
            }
            if !pause {
              if key == Arrow(Left) && snake.direction != Right {
                snake.MoveLeft();
              } else if key == Arrow(Right) && snake.direction != Left {
                snake.MoveRight();
              } else if key == Arrow(Up) && snake.direction != Down {
                snake.MoveUp();
              } else if key == Arrow(Down) && snake.direction != Up {
                snake.MoveDown();
              }
            }
        }
        assert events[..i + 1] == events[..i] + [events[i]];
        i := i + 1;
      }
      assert events[..i] == events;
    }

    /** One iteration of `run`: events, then play unless paused; a death
        pauses the game and resets it at once. */
    method Tick(t: TickInput, pause0: bool, running0: bool) returns (pause: bool, running: bool, cues: seq<Cue>)
      requires Valid() && ValidInput(t)
      modifies Repr
      ensures Valid() && fresh(Repr - old(Repr))
      ensures Stepped(Session(State(), pause, running), cues) == TickRule(Session(old(State()), pause0, running0), t)
    {
      pause, running := HandleEvents(t.events, pause0, running0);
      cues := [];
      if !pause {
        var outcome;
        outcome, cues := Play(t.col, t.row);
        if outcome.Died? {
          pause := true;
          Reset();
        }
      }
    }

    /** The controller loop over a finite list of per-tick inputs, starting
        running and not paused; it stops after the iteration in which Escape
        or window close is seen, or when the inputs run out. */
    method Run(ticks: seq<TickInput>) returns (pause: bool, running: bool, cues: seq<Cue>)
      requires Valid() && forall i :: 0 <= i < |ticks| ==> ValidInput(ticks[i])
      modifies Repr
      ensures Valid() && fresh(Repr - old(Repr))
      ensures Stepped(Session(State(), pause, running), cues) == RunRule(Session(old(State()), false, true), ticks)
    {
      running, pause, cues := true, false, [];
      var n := 0;
      while running && n < |ticks|
        invariant 0 <= n <= |ticks|
        invariant Valid() && fresh(Repr - old(Repr))
        invariant var r := RunRule(Session(State(), pause, running), ticks[n..]);
          RunRule(Session(old(State()), false, true), ticks) == Stepped(r.session, cues + r.cues)
      {
        ghost var before := Session(State(), pause, running);
        var tickCues;
        pause, running, tickCues := Tick(ticks[n], pause, running);
        RunRuleUnfold(before, ticks, n, Stepped(Session(State(), pause, running), tickCues), cues);
        cues := cues + tickCues;
        n := n + 1;
      }
      assert cues + [] == cues;
    }
  }
}
