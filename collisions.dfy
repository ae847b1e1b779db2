/** The per-tick rules of the game as values: a `World` holds what the game's
    snake and apple hold, and `Check` / `PlayRule` give the world, the outcome
    and the sound cues that `check_collisions` and `play` produce. */
module Collisions {
  import opened Grid
  import opened SnakeModel

  /** The snake's coordinate lists and heading, and the apple's position. */
  datatype World = World(xs: seq<int>, ys: seq<int>, dir: Direction, appleX: int, appleY: int)
  {
    predicate Valid() {
      |xs| == |ys| && |xs| >= 1
    }
  }

  /** What a new game holds: a one-segment snake on (5, 5) heading down and
      the apple on (3, 3). */
  const Initial: World := World([5 * SIZE], [5 * SIZE], Down, 3 * SIZE, 3 * SIZE)

  /** A death is signalled as a value instead of an exception. */
  datatype Cause = SelfCollision | WallCollision
  datatype Outcome = Continue | Died(cause: Cause)

  /** The sound cue the game asks for: "ding" on eating, "crash" on dying. */
  datatype Cue = Ding | Crash

  datatype Checked = Checked(world: World, outcome: Outcome, cues: seq<Cue>)

  /** The world after one walk of the snake. */
  function Walked(w: World): (r: World)
    requires w.Valid()
    ensures r.Valid() && |r.xs| == |w.xs| && r.dir == w.dir
    ensures r.appleX == w.appleX && r.appleY == w.appleY
    ensures r.xs[0] == w.xs[0] + DeltaX(w.dir) && r.ys[0] == w.ys[0] + DeltaY(w.dir)
  {
    w.(xs := Shift(w.xs, w.xs[0] + DeltaX(w.dir)), ys := Shift(w.ys, w.ys[0] + DeltaY(w.dir)))
  }

  /** After a walk each segment from index 1 on holds the cell of the segment
      in front of it. */
  lemma WalkedFollows(w: World)
    requires w.Valid()
    ensures forall i :: 1 <= i < |w.xs| ==> Walked(w).xs[i] == w.xs[i - 1] && Walked(w).ys[i] == w.ys[i - 1]
  {
  }

  /** `n + 1` walks in a fixed heading are `n` walks followed by one `Walked`
      step, so the repeated walk of `SnakeModel` is this one iterated. */
  lemma WalkTimesIsIteratedWalked(w: World, n: nat)
    requires w.Valid()
    ensures var p := WalkTimes(w.xs, w.ys, w.dir, n);
      var v := Walked(w.(xs := p.0, ys := p.1));
      WalkTimes(w.xs, w.ys, w.dir, n + 1) == (v.xs, v.ys)
  {
  }

  /** The head is over the apple. With everything on the board this is the
      head standing on the apple's cell, not merely inside its box. */
  predicate Eats(w: World)
    requires w.Valid()
    ensures OnGrid(w.xs[0], w.ys[0]) && OnGrid(w.appleX, w.appleY) ==>
      (Eats(w) <==> w.xs[0] == w.appleX && w.ys[0] == w.appleY)
  {
    IsCollision(w.xs[0], w.ys[0], w.appleX, w.appleY)
  }

  /** Some segment from index 2 on is under the head; index 1 is not tested. */
  predicate SelfHit(xs: seq<int>, ys: seq<int>)
    requires |xs| == |ys| && |xs| >= 1
    ensures SelfHit(xs, ys) ==> |xs| >= 3
  {
    exists k :: 2 <= k < |xs| && IsCollision(xs[0], ys[0], xs[k], ys[k])
  }

  /** The three checks of `check_collisions`, in their order: eat (grow and
      relocate the apple to the drawn cell), then the body, then the wall. */
  function Check(w: World, col: int, row: int): (r: Checked)
    requires w.Valid()
    requires 0 <= col <= MAX_COL && 0 <= row <= MAX_ROW
    ensures r.world.Valid() && r.world.dir == w.dir
    ensures r.world.xs[0] == w.xs[0] && r.world.ys[0] == w.ys[0]
    ensures |r.world.xs| == |w.xs| + (if Eats(w) then 1 else 0)
    ensures r.outcome == Continue ==> !OffBoard(w.xs[0], w.ys[0]) && !SelfHit(r.world.xs, r.world.ys)
    ensures |r.cues| <= 2 && (Ding in r.cues <==> Eats(w)) && (Crash in r.cues <==> r.outcome.Died?)
  {
    var ate := Eats(w);
    var p := CellPosition(col, row);
    var w1 := if ate then w.(xs := Grow(w.xs), ys := Grow(w.ys), appleX := p.0, appleY := p.1) else w;
    var ding := if ate then [Ding] else [];
    if SelfHit(w1.xs, w1.ys) then Checked(w1, Died(SelfCollision), ding + [Crash])
    else if OffBoard(w1.xs[0], w1.ys[0]) then Checked(w1, Died(WallCollision), ding + [Crash])
    else Checked(w1, Continue, ding)
  }

  /** `play`: walk, then check. */
  function PlayRule(w: World, col: int, row: int): (r: Checked)
    requires w.Valid()
    requires 0 <= col <= MAX_COL && 0 <= row <= MAX_ROW
    ensures r.world.Valid() && r.world.dir == w.dir
    ensures r.world.xs[0] == w.xs[0] + DeltaX(w.dir) && r.world.ys[0] == w.ys[0] + DeltaY(w.dir)
    ensures r.outcome == Continue ==> !OffBoard(r.world.xs[0], r.world.ys[0])
  {
    Check(Walked(w), col, row)
  }

  /** The outcome and cues of one check, case by case: eating grows the snake by
      one copy of its tail and moves the apple to the drawn cell, otherwise the
      world is unchanged; a body hit from index 2 on is a self collision; only
      without one can a head outside the window be a wall collision. */
  lemma {:induction false} CheckCases(w: World, col: int, row: int)
    requires w.Valid()
    requires 0 <= col <= MAX_COL && 0 <= row <= MAX_ROW
    ensures var r := Check(w, col, row);
      && r.world.Valid()
      && r.world.dir == w.dir
      && r.world.xs[0] == w.xs[0] && r.world.ys[0] == w.ys[0]
      && (Eats(w) ==> r.world.xs == Grow(w.xs) && r.world.ys == Grow(w.ys)
                      && (r.world.appleX, r.world.appleY) == CellPosition(col, row))
      && (!Eats(w) ==> r.world == w)
      && (r.outcome == Died(SelfCollision) <==> SelfHit(r.world.xs, r.world.ys))
      && (r.outcome == Died(WallCollision) <==> !SelfHit(r.world.xs, r.world.ys) && OffBoard(w.xs[0], w.ys[0]))
      && r.cues == (if Eats(w) then [Ding] else []) + (if r.outcome.Died? then [Crash] else [])
  {
  }

  /** Whatever index 1 holds, the self-collision verdict is the same. */
  lemma {:induction false} SelfHitIgnoresNeck(xs: seq<int>, ys: seq<int>, a: int, b: int)
    requires |xs| == |ys| && |xs| >= 2
    ensures SelfHit(xs[1 := a], ys[1 := b]) <==> SelfHit(xs, ys)
  {
    var xs', ys' := xs[1 := a], ys[1 := b];
    if SelfHit(xs, ys) {
      var k :| 2 <= k < |xs| && IsCollision(xs[0], ys[0], xs[k], ys[k]);
      assert IsCollision(xs'[0], ys'[0], xs'[k], ys'[k]);
    }
    if SelfHit(xs', ys') {
      var k :| 2 <= k < |xs'| && IsCollision(xs'[0], ys'[0], xs'[k], ys'[k]);
      assert IsCollision(xs[0], ys[0], xs[k], ys[k]);
    }
  }

  /** Every coordinate of the snake is a whole number of cells. */
  predicate AlignedBody(xs: seq<int>, ys: seq<int>) {
    (forall i :: 0 <= i < |xs| ==> Aligned(xs[i])) && (forall i :: 0 <= i < |ys| ==> Aligned(ys[i]))
  }

  /** Skipping index 1 loses nothing: right after a walk, segment 1 holds the
      old head and the new head is one whole cell away from it, so on aligned
      coordinates the box test against index 1 would always fail. */
  lemma {:induction false} NeckNeverUnderHeadAfterWalk(w: World)
    requires w.Valid() && |w.xs| >= 2 && AlignedBody(w.xs, w.ys)
    ensures var v := Walked(w); !IsCollision(v.xs[0], v.ys[0], v.xs[1], v.ys[1])
  {
    var v := Walked(w);
    StepIsOneCell(w.dir);
    WalkedFollows(w);
    assert v.xs[1] == w.xs[0] && v.ys[1] == w.ys[0];
    assert Aligned(w.xs[0]) && Aligned(w.ys[0]);
    assert Aligned(v.xs[0]) && Aligned(v.ys[0]);
  }

  /** Walking keeps every coordinate aligned to the cells. */
  lemma {:induction false} WalkKeepsAligned(w: World)
    requires w.Valid() && AlignedBody(w.xs, w.ys)
    ensures AlignedBody(Walked(w).xs, Walked(w).ys)
  {
    var v := Walked(w);
    StepIsOneCell(w.dir);
    WalkedFollows(w);
    assert Aligned(v.xs[0]) && Aligned(v.ys[0]);
    forall i | 1 <= i < |v.xs|
      ensures Aligned(v.xs[i]) && Aligned(v.ys[i])
    {
      assert v.xs[i] == w.xs[i - 1] && v.ys[i] == w.ys[i - 1];
    }
  }

  /** On aligned coordinates the self-collision test is equality with a
      segment from index 2 on. */
  lemma {:induction false} SelfHitOnGrid(xs: seq<int>, ys: seq<int>)
    requires |xs| == |ys| && |xs| >= 1 && AlignedBody(xs, ys)
    ensures SelfHit(xs, ys) <==> exists k :: 2 <= k < |xs| && xs[k] == xs[0] && ys[k] == ys[0]
  {
    forall k | 2 <= k < |xs|
      ensures IsCollision(xs[0], ys[0], xs[k], ys[k]) <==> xs[k] == xs[0] && ys[k] == ys[0]
    {
      assert Aligned(xs[0]) && Aligned(ys[0]) && Aligned(xs[k]) && Aligned(ys[k]);
    }
  }

  /** The self-collision loop of `check_collisions`: compare the head with the
      segments from index 2 on, stopping at the first hit. */
  method FindSelfCollision(xs: seq<int>, ys: seq<int>) returns (hit: bool)
    requires |xs| == |ys| && |xs| >= 1
    ensures hit <==> SelfHit(xs, ys)
  {
    var i := 2;
    while i < |xs|
      invariant 2 <= i
      invariant forall k :: 2 <= k < i && k < |xs| ==> !IsCollision(xs[0], ys[0], xs[k], ys[k])
    {
      if IsCollision(xs[0], ys[0], xs[i], ys[i]) {
        return true;
      }
      i := i + 1;
    }
    return false;
  }

  /** Everything on the board is on a cell inside the window: every segment
      and the apple. */
  predicate OnBoard(w: World) {
    && w.Valid()
    && (forall i :: 0 <= i < |w.xs| ==> OnGrid(w.xs[i], w.ys[i]))
    && OnGrid(w.appleX, w.appleY)
  }

  lemma InitialOnBoard()
    ensures OnBoard(Initial)
  {
  }

  /** A tick that the snake survives leaves everything on the board: the body
      follows cells it already held, the head passed the wall test, a grown
      tail repeats an on-board cell and a moved apple is on a drawn cell. */
  lemma {:induction false} SurvivingPlayStaysOnBoard(w: World, col: int, row: int)
    requires OnBoard(w)
    requires 0 <= col <= MAX_COL && 0 <= row <= MAX_ROW
    requires PlayRule(w, col, row).outcome == Continue
    ensures OnBoard(PlayRule(w, col, row).world)
  {
    var v := Walked(w);
    var r := Check(v, col, row);
    assert AlignedBody(w.xs, w.ys) by {
      forall i | 0 <= i < |w.xs| ensures Aligned(w.xs[i]) && Aligned(w.ys[i]) {
        assert OnGrid(w.xs[i], w.ys[i]);
      }
    }
    WalkKeepsAligned(w);
    WalkedFollows(w);
    CheckCases(v, col, row);
    assert !OffBoard(v.xs[0], v.ys[0]);
    assert OnGrid(v.xs[0], v.ys[0]);
    forall i | 0 <= i < |v.xs| ensures OnGrid(v.xs[i], v.ys[i]) {
      if i > 0 {
        assert v.xs[i] == w.xs[i - 1] && v.ys[i] == w.ys[i - 1];
      }
    }
    forall i | 0 <= i < |r.world.xs| ensures OnGrid(r.world.xs[i], r.world.ys[i]) {
      if i < |v.xs| {
        assert r.world.xs[i] == v.xs[i] && r.world.ys[i] == v.ys[i];
      } else {
        assert r.world.xs[i] == v.xs[|v.xs| - 1] && r.world.ys[i] == v.ys[|v.ys| - 1];
      }
    }
  }
}
