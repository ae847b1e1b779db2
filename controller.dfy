/** The controller loop of the game as values: how the events of one tick
    update the `pause` and `running` flags and the snake's heading, what one
    iteration of the loop does, and what a whole run of the loop does. */
module Controller {
  import opened Grid
  import opened Collisions

  datatype Key = Escape | Return | Arrow(d: Direction) | OtherKey
  datatype Event = Quit | KeyDown(key: Key) | OtherEvent

  /** The loop's two flags and the snake's heading, the state events change. */
  datatype Controls = Controls(pause: bool, running: bool, dir: Direction)

  /** One event: window close and Escape stop the loop, Enter clears the pause;
      then, unless paused, an arrow key turns the snake except into the
      opposite of its current heading. */
  function ApplyEvent(e: Event, c: Controls): (r: Controls)
    ensures r.pause ==> c.pause
    ensures r.running ==> c.running
    ensures r.dir != c.dir ==> !r.pause && e.KeyDown? && e.key == Arrow(r.dir) && r.dir != Opposite(c.dir)
  {
    match e
    case Quit => c.(running := false)
    case OtherEvent => c
    case KeyDown(key) =>
      var c1 := if key == Escape then c.(running := false)
                else if key == Return then c.(pause := false)
                else c;
      if !c1.pause && key.Arrow? && c1.dir != Opposite(key.d) then c1.(dir := key.d) else c1
  }

  /** The events of one tick, in order; each one sees the heading the earlier
      ones left. */
  function ApplyEvents(es: seq<Event>, c: Controls): (r: Controls)
    ensures r.pause ==> c.pause
    ensures r.running ==> c.running
    ensures r.dir != c.dir ==> !r.pause && KeyDown(Arrow(r.dir)) in es
    decreases |es|
  {
    if es == [] then c else ApplyEvent(es[|es| - 1], ApplyEvents(es[..|es| - 1], c))
  }

  /** A single arrow key: ignored while paused and when it is the reverse of the
      heading, applied otherwise; the flags are not touched. */
  lemma ArrowKeyRule(d: Direction, c: Controls)
    ensures var r := ApplyEvent(KeyDown(Arrow(d)), c);
      && r.pause == c.pause && r.running == c.running
      && (r.dir == d <==> (!c.pause && d != Opposite(c.dir)) || c.dir == d)
      && (r.dir != d ==> r.dir == c.dir)
  {
    OppositeIsInvolution(d);
    OppositeIsInvolution(c.dir);
  }

  /** No event sets the pause flag, and Enter clears it: after a tick's events
      the game is paused exactly when it was and no Enter came. */
  lemma {:induction false} EventsPauseRule(es: seq<Event>, c: Controls)
    ensures ApplyEvents(es, c).pause <==> c.pause && KeyDown(Return) !in es
    decreases |es|
  {
    if es != [] {
      var init := es[..|es| - 1];
      EventsPauseRule(init, c);
      assert es == init + [es[|es| - 1]];
    }
  }

  /** Only window close and Escape stop the loop, and nothing restarts it. */
  lemma {:induction false} EventsRunningRule(es: seq<Event>, c: Controls)
    ensures ApplyEvents(es, c).running <==> c.running && Quit !in es && KeyDown(Escape) !in es
    decreases |es|
  {
    if es != [] {
      var init := es[..|es| - 1];
      EventsRunningRule(init, c);
      assert es == init + [es[|es| - 1]];
    }
  }

  /** While paused and with no Enter, the heading does not change. */
  lemma {:induction false} PausedIgnoresArrows(es: seq<Event>, c: Controls)
    requires c.pause && KeyDown(Return) !in es
    ensures ApplyEvents(es, c).dir == c.dir
    decreases |es|
  {
    if es != [] {
      var init := es[..|es| - 1];
      assert es == init + [es[|es| - 1]];
      PausedIgnoresArrows(init, c);
      EventsPauseRule(init, c);
    }
  }

  /** The guard compares against the heading as already changed by the same
      tick's earlier keys, so two keys in one tick can reverse the snake:
      heading left, Up then Right leaves it heading right. */
  lemma TwoKeysReverse(running: bool)
    ensures ApplyEvents([KeyDown(Arrow(Up)), KeyDown(Arrow(Right))], Controls(false, running, Left)).dir == Right
    ensures ApplyEvents([KeyDown(Arrow(Right))], Controls(false, running, Left)).dir == Left
  {
    var es := [KeyDown(Arrow(Up)), KeyDown(Arrow(Right))];
    assert es[..1] == [KeyDown(Arrow(Up))];
    assert [KeyDown(Arrow(Up))][..0] == [];
  }

  /** What is fed to one iteration of the loop: the events polled this tick, and
      the column and row the apple moves to if it is eaten. */
  datatype TickInput = TickInput(events: seq<Event>, col: int, row: int)

  predicate ValidInput(t: TickInput) {
    0 <= t.col <= MAX_COL && 0 <= t.row <= MAX_ROW
  }

  /** The game's state between iterations of the loop. */
  datatype Session = Session(world: World, pause: bool, running: bool)

  datatype Stepped = Stepped(session: Session, cues: seq<Cue>)

  /** One iteration: handle the events; unless paused, play; a death pauses the
      game and resets the snake and apple at once. */
  function TickRule(s: Session, t: TickInput): (r: Stepped)
    requires s.world.Valid() && ValidInput(t)
    ensures r.session.world.Valid()
    ensures r.session.running ==> s.running
    ensures |r.cues| <= 2
    ensures r.session.pause ==> r.cues == [] || r.session.world == Initial
  {
    var c := ApplyEvents(t.events, Controls(s.pause, s.running, s.world.dir));
    var w := s.world.(dir := c.dir);
    if c.pause then Stepped(Session(w, true, c.running), [])
    else
      var r := PlayRule(w, t.col, t.row);
      if r.outcome.Died? then Stepped(Session(Initial, true, c.running), r.cues)
      else Stepped(Session(r.world, false, c.running), r.cues)
  }

  /** The loop over a finite list of ticks: it stops once `running` is false
      at the top of an iteration, or when the ticks run out. */
  function RunRule(s: Session, ts: seq<TickInput>): (r: Stepped)
    requires s.world.Valid() && forall i :: 0 <= i < |ts| ==> ValidInput(ts[i])
    ensures r.session.world.Valid()
    ensures r.session.running ==> s.running
    decreases |ts|
  {
    if !s.running || ts == [] then Stepped(s, [])
    else
      var st := TickRule(s, ts[0]);
      var rest := RunRule(st.session, ts[1..]);
      Stepped(rest.session, st.cues + rest.cues)
  }

  /** A running loop with ticks left plays the first one, then the rest. */
  lemma RunRuleFront(s: Session, ts: seq<TickInput>)
    requires s.world.Valid() && forall i :: 0 <= i < |ts| ==> ValidInput(ts[i])
    requires s.running && ts != []
    ensures var st := TickRule(s, ts[0]);
      var rest := RunRule(st.session, ts[1..]);
      RunRule(s, ts) == Stepped(rest.session, st.cues + rest.cues)
  {
  }

  /** The same step for the ticks from index `n` on. */
  lemma RunRuleAt(s: Session, ts: seq<TickInput>, n: nat)
    requires s.world.Valid() && forall i :: 0 <= i < |ts| ==> ValidInput(ts[i])
    requires s.running && n < |ts|
    ensures var st := TickRule(s, ts[n]);
      var rest := RunRule(st.session, ts[n + 1..]);
      RunRule(s, ts[n..]) == Stepped(rest.session, st.cues + rest.cues)
  {
    var suffix := ts[n..];
    assert suffix[0] == ts[n] && suffix[1..] == ts[n + 1..];
    RunRuleFront(s, suffix);
  }

  /** Gathering cues tick by tick or run by run gives the same list. */
  lemma CuesAssociate(a: seq<Cue>, b: seq<Cue>, c: seq<Cue>)
    ensures a + (b + c) == (a + b) + c
  {
  }

  /** One more iteration of the loop, seen from the whole run: running the rest
      of the ticks after this one, the cues gathered so far extended by this
      tick's cues lead to the same end. */
  lemma RunRuleUnfold(s: Session, ts: seq<TickInput>, n: nat, st: Stepped, cues: seq<Cue>)
    requires s.world.Valid() && forall i :: 0 <= i < |ts| ==> ValidInput(ts[i])
    requires s.running && n < |ts| && st == TickRule(s, ts[n])
    ensures st.session.world.Valid()
    ensures var r := RunRule(s, ts[n..]);
      var rest := RunRule(st.session, ts[n + 1..]);
      Stepped(r.session, cues + r.cues) == Stepped(rest.session, (cues + st.cues) + rest.cues)
  {
    RunRuleAt(s, ts, n);
    var rest := RunRule(st.session, ts[n + 1..]);
    CuesAssociate(cues, st.cues, rest.cues);
  }

  /** A paused tick without Enter changes nothing: no walk, no turn, no cue. */
  lemma PausedTickIsFrozen(s: Session, t: TickInput)
    requires s.world.Valid() && ValidInput(t)
    requires s.pause && KeyDown(Return) !in t.events
    ensures var r := TickRule(s, t);
      && r.session.world == s.world && r.session.pause && r.cues == []
  {
    var c0 := Controls(s.pause, s.running, s.world.dir);
    EventsPauseRule(t.events, c0);
    PausedIgnoresArrows(t.events, c0);
  }

  /** A death in play pauses the game, resets it to a one-segment snake on
      (5, 5) heading down with the apple on (3, 3), and ends with a crash. */
  lemma DeathPausesAndResets(s: Session, t: TickInput)
    requires s.world.Valid() && ValidInput(t)
    requires var c := ApplyEvents(t.events, Controls(s.pause, s.running, s.world.dir));
      !c.pause && PlayRule(s.world.(dir := c.dir), t.col, t.row).outcome.Died?
    ensures var r := TickRule(s, t);
      && r.session.world == Initial && r.session.pause
      && |r.cues| >= 1 && r.cues[|r.cues| - 1] == Crash
  {
    var c := ApplyEvents(t.events, Controls(s.pause, s.running, s.world.dir));
    CheckCases(Walked(s.world.(dir := c.dir)), t.col, t.row);
  }

  /** The loop keeps everything on the board at the top of every iteration:
      a surviving tick keeps it there and a death restarts from the initial
      world. */
  lemma {:induction false} TickStaysOnBoard(s: Session, t: TickInput)
    requires OnBoard(s.world) && ValidInput(t)
    ensures OnBoard(TickRule(s, t).session.world)
  {
    var c := ApplyEvents(t.events, Controls(s.pause, s.running, s.world.dir));
    var w := s.world.(dir := c.dir);
    assert OnBoard(w);
    if !c.pause {
      var r := PlayRule(w, t.col, t.row);
      if r.outcome.Died? {
        InitialOnBoard();
      } else {
        SurvivingPlayStaysOnBoard(w, t.col, t.row);
      }
    }
  }

  lemma {:induction false} RunStaysOnBoard(s: Session, ts: seq<TickInput>)
    requires OnBoard(s.world) && forall i :: 0 <= i < |ts| ==> ValidInput(ts[i])
    ensures OnBoard(RunRule(s, ts).session.world)
    decreases |ts|
  {
    if s.running && ts != [] {
      TickStaysOnBoard(s, ts[0]);
      RunStaysOnBoard(TickRule(s, ts[0]).session, ts[1..]);
    }
  }

  /** Once Escape or window close is seen, the current iteration still plays
      but the loop then stops: a run whose first tick quits is that tick alone. */
  lemma {:induction false} QuitEndsAfterCurrentTick(s: Session, ts: seq<TickInput>)
    requires s.world.Valid() && forall i :: 0 <= i < |ts| ==> ValidInput(ts[i])
    requires s.running && ts != [] && (Quit in ts[0].events || KeyDown(Escape) in ts[0].events)
    ensures RunRule(s, ts) == TickRule(s, ts[0])
  {
    var st := TickRule(s, ts[0]);
    EventsRunningRule(ts[0].events, Controls(s.pause, s.running, s.world.dir));
    assert !st.session.running;
    assert RunRule(st.session, ts[1..]) == Stepped(st.session, []);
    assert st.cues + [] == st.cues;
  }

  /** A tick without input from a one-segment snake in column 5 heading down,
      clear of the apple and of the bottom wall, moves the head one row down. */
  lemma QuietTickDown(y: int)
    requires 0 <= y && y + SIZE < WINDOW_H
    ensures TickRule(Session(Initial.(ys := [y]), false, true), TickInput([], 0, 0))
         == Stepped(Session(Initial.(ys := [y + SIZE]), false, true), [])
  {
    var w := Initial.(ys := [y]);
    var v := Walked(w);
    assert v == Initial.(ys := [y + SIZE]);
    assert !Eats(v);
    assert !SelfHit(v.xs, v.ys);
  }

  /** The end-to-end scenario: from a new game, three ticks without input walk
      the head to (5, 8), nothing is eaten and the game keeps playing. */
  lemma ThreeQuietTicks()
    ensures var r := RunRule(Session(Initial, false, true), [TickInput([], 0, 0), TickInput([], 0, 0), TickInput([], 0, 0)]);
      && r.session.world.xs == [5 * SIZE] && r.session.world.ys == [8 * SIZE]
      && r.session.world.appleX == 3 * SIZE && r.session.world.appleY == 3 * SIZE
      && !r.session.pause && r.session.running && r.cues == []
  {
    var t := TickInput([], 0, 0);
    var ts := [t, t, t];
    assert Initial == Initial.(ys := [5 * SIZE]);
    QuietTickDown(5 * SIZE);
    QuietTickDown(6 * SIZE);
    QuietTickDown(7 * SIZE);
    assert ts[1..] == [t, t] && ts[1..][1..] == [t] && ts[1..][1..][1..] == [];
  }

  /** The end-to-end wall scenario: a snake whose head is on the bottom row
      heading down dies on the next tick, the game pauses and resets; further
      ticks do nothing; Enter resumes play from the initial world. */
  lemma WallDeathThenRestart()
    ensures var s0 := Session(World([5 * SIZE], [WINDOW_H - SIZE], Down, 3 * SIZE, 3 * SIZE), false, true);
      var s1 := TickRule(s0, TickInput([], 0, 0));
      var s2 := TickRule(s1.session, TickInput([], 0, 0));
      var s3 := TickRule(s2.session, TickInput([KeyDown(Return)], 0, 0));
      && s1.session == Session(Initial, true, true) && s1.cues == [Crash]
      && s2.session == s1.session && s2.cues == []
      && !s3.session.pause && s3.session.world.ys == [6 * SIZE] && s3.cues == []
  {
  }
}
