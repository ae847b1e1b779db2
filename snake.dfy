/** The snake: parallel coordinate lists (index 0 is the head), a length and a
    heading. `Walk` shifts the body from tail to head and steps the head by one
    cell; `IncreaseLength` appends a placeholder copy of the tail. */
module SnakeModel {
  import opened Grid

  /** The body after a walk, as a value: every segment takes the place of its
      predecessor and the head goes to `head`. */
  function Shift(s: seq<int>, head: int): (r: seq<int>)
    requires |s| >= 1
    ensures |r| == |s| && r[0] == head
    ensures forall i :: 1 <= i < |s| ==> r[i] == s[i - 1]
  {
    [head] + s[..|s| - 1]
  }

  /** The body after growing, as a value: the old tail is repeated at the end. */
  function Grow(s: seq<int>): (r: seq<int>)
    requires |s| >= 1
    ensures |r| == |s| + 1 && r[..|s|] == s && r[|s|] == s[|s| - 1]
  {
    s + [s[|s| - 1]]
  }

  /** `n` walks in a fixed heading, starting from the coordinate lists `xs`, `ys`. */
  function WalkTimes(xs: seq<int>, ys: seq<int>, d: Direction, n: nat): (r: (seq<int>, seq<int>))
    requires |xs| >= 1 && |ys| >= 1
    ensures |r.0| == |xs| && |r.1| == |ys|
    decreases n
  {
    if n == 0 then (xs, ys)
    else
      var p := WalkTimes(xs, ys, d, n - 1);
      (Shift(p.0, p.0[0] + DeltaX(d)), Shift(p.1, p.1[0] + DeltaY(d)))
  }

  /** After `n` walks in one heading the head has moved `n` cells along that
      heading's axis, whatever the body length. */
  lemma {:induction false} WalkTimesMovesHead(xs: seq<int>, ys: seq<int>, d: Direction, n: nat)
    requires |xs| >= 1 && |ys| >= 1
    ensures WalkTimes(xs, ys, d, n).0[0] == xs[0] + n * DeltaX(d)
    ensures WalkTimes(xs, ys, d, n).1[0] == ys[0] + n * DeltaY(d)
    decreases n
  {
    if n > 0 {
      WalkTimesMovesHead(xs, ys, d, n - 1);
    }
  }

  /** From the start cell (5, 5) heading down, three walks put the head on (5, 8). */
  lemma ThreeWalksDown()
    ensures WalkTimes([5 * SIZE], [5 * SIZE], Down, 3) == ([5 * SIZE], [8 * SIZE])
  {
    var r := WalkTimes([5 * SIZE], [5 * SIZE], Down, 3);
    WalkTimesMovesHead([5 * SIZE], [5 * SIZE], Down, 3);
    assert r.0 == [5 * SIZE] && r.1 == [8 * SIZE];
  }

  class Snake {
    var xs: seq<int>
    var ys: seq<int>
    var length: int
    var direction: Direction

    /** The two lists always describe `length` segments, and there is a head. */
    ghost predicate Valid()
      reads this
    {
      |xs| == length && |ys| == length && length >= 1
    }

    /** A new snake: one segment on cell (5, 5), heading down. */
    constructor ()
      ensures Valid()
      ensures xs == [5 * SIZE] && ys == [5 * SIZE] && length == 1 && direction == Down
    {
      direction := Down;
      length := 1;
      xs := [5 * SIZE];
      ys := [5 * SIZE];
    }

    method MoveLeft()
      modifies this
      ensures direction == Left && xs == old(xs) && ys == old(ys) && length == old(length)
    {
      direction := Left;
    }

    method MoveRight()
      modifies this
      ensures direction == Right && xs == old(xs) && ys == old(ys) && length == old(length)
    {
      direction := Right;
    }

    method MoveUp()
      modifies this
      ensures direction == Up && xs == old(xs) && ys == old(ys) && length == old(length)
    {
      direction := Up;
    }

    method MoveDown()
      modifies this
      ensures direction == Down && xs == old(xs) && ys == old(ys) && length == old(length)
    {
      direction := Down;
    }

    /** One tick of movement: the body follows the head, then the head steps
        one cell along the heading. Length and heading do not change. */
    method Walk()
      requires Valid()
      modifies this
      ensures Valid() && length == old(length) && direction == old(direction)
      ensures xs == Shift(old(xs), old(xs[0]) + DeltaX(direction))
      ensures ys == Shift(old(ys), old(ys[0]) + DeltaY(direction))
    {
      var i := length - 1;
      while i > 0
        invariant 0 <= i < length == old(length) && direction == old(direction)
        invariant |xs| == length && |ys| == length
        invariant forall k :: i < k < length ==> xs[k] == old(xs)[k - 1] && ys[k] == old(ys)[k - 1]
        invariant forall k :: 0 <= k <= i ==> xs[k] == old(xs[k]) && ys[k] == old(ys[k])
      {
        xs := xs[i := xs[i - 1]];
        ys := ys[i := ys[i - 1]];
        i := i - 1;
      }
      match direction
      case Left => xs := xs[0 := xs[0] - SIZE];
      case Right => xs := xs[0 := xs[0] + SIZE];
      case Up => ys := ys[0 := ys[0] - SIZE];
      case Down => ys := ys[0 := ys[0] + SIZE];
    }

    /** Growth by one segment: a copy of the current tail is appended to both
        lists; it takes its real place at the next walk. */
    method IncreaseLength()
      requires Valid()
      modifies this
      ensures Valid() && length == old(length) + 1 && direction == old(direction)
      ensures xs == Grow(old(xs)) && ys == Grow(old(ys))
    {
      length := length + 1;
      xs := xs + [xs[|xs| - 1]];
      ys := ys + [ys[|ys| - 1]];
    }
  }
}
