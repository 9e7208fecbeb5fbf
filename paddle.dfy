/** The paddle: a fixed-size box near the bottom that the player moves in steps of 8. */
module PaddleModel {
  import opened Arena

  const PaddleWidth: int := 100
  const PaddleHeight: int := 15
  const PaddleSpeed: int := 8
  const PaddleStartX: int := ScreenWidth / 2 - PaddleWidth / 2
  const PaddleY: int := ScreenHeight - 50

  /** Paddle.move: "left" steps left while the paddle's left edge is right of 0,
      "right" steps right while it is left of 700; every other direction is ignored.
      The guard is tested before the step, so the paddle can overshoot by up to 7. */
  function Stepped(x: int, direction: string): (r: int)
    ensures r < x <==> direction == "left" && x > 0
    ensures r > x <==> direction == "right" && x < ScreenWidth - PaddleWidth
    ensures r == x || r == x - PaddleSpeed || r == x + PaddleSpeed
  {
    var afterLeft := if direction == "left" && x > 0 then x - PaddleSpeed else x;
    if direction == "right" && afterLeft < ScreenWidth - PaddleWidth then afterLeft + PaddleSpeed
    else afterLeft
  }

  /** Paddle.get_rect with the paddle's left edge at x. */
  function PaddleRect(x: int): (r: Rect)
    ensures r.left == x as real && r.left + r.width == (x + PaddleWidth) as real
    ensures r.top == PaddleY as real && r.top + r.height == (PaddleY + PaddleHeight) as real
  {
    Rect(x as real, PaddleY as real, PaddleWidth as real, PaddleHeight as real)
  }

  /** The positions the paddle can take from its start at 350: the start plus a
      multiple of 8, between -2 and 702. */
  predicate Reachable(x: int) {
    -2 <= x <= ScreenWidth - PaddleWidth + 2 && x % PaddleSpeed == PaddleStartX % PaddleSpeed
  }

  lemma StartReachable()
    ensures Reachable(PaddleStartX)
  {
  }

  /** Every step keeps the paddle among the reachable positions. */
  lemma SteppedReachable(x: int, direction: string)
    requires Reachable(x)
    ensures Reachable(Stepped(x, direction))
  {
  }

  /** Every step keeps the paddle strictly inside (-8, 708). */
  lemma SteppedWithinBand(x: int, direction: string)
    requires -PaddleSpeed < x < ScreenWidth - PaddleWidth + PaddleSpeed
    ensures -PaddleSpeed < Stepped(x, direction) < ScreenWidth - PaddleWidth + PaddleSpeed
  {
  }

  /** n presses in one direction. */
  function Repeated(x: int, direction: string, n: nat): int {
    if n == 0 then x else Stepped(Repeated(x, direction, n - 1), direction)
  }

  /** Holding "left" moves by exactly 8 per step as long as the guard held before the last step. */
  lemma {:induction false} RepeatedLeft(x: int, n: nat)
    requires n > 0 ==> x - PaddleSpeed * (n - 1) > 0
    ensures Repeated(x, "left", n) == x - PaddleSpeed * n
  {
    if n > 0 {
      RepeatedLeft(x, n - 1);
    }
  }

  /** Holding "right" moves by exactly 8 per step as long as the guard held before the last step. */
  lemma {:induction false} RepeatedRight(x: int, n: nat)
    requires n > 0 ==> x + PaddleSpeed * (n - 1) < ScreenWidth - PaddleWidth
    ensures Repeated(x, "right", n) == x + PaddleSpeed * n
  {
    if n > 0 {
      RepeatedRight(x, n - 1);
    }
  }

  /** The paddle is not clamped to [0, 700]: from the start, 44 steps left reach -2
      and 44 steps right reach 702. */
  lemma LeavesScreenFromStart()
    ensures Repeated(PaddleStartX, "left", 44) == -2
    ensures Repeated(PaddleStartX, "right", 44) == ScreenWidth - PaddleWidth + 2
  {
    RepeatedLeft(PaddleStartX, 44);
    RepeatedRight(PaddleStartX, 44);
  }

  /** pygame's Paddle: only x changes. */
  class Paddle {
    const width: int := PaddleWidth
    const height: int := PaddleHeight
    var x: int
    const y: int := PaddleY
    const speed: int := PaddleSpeed

    /** Paddle.__init__: centred horizontally, 50 above the bottom. */
    constructor ()
      ensures x == PaddleStartX
    {
      x := ScreenWidth / 2 - width / 2;
    }

    method Move(direction: string)
      modifies this
      ensures x == Stepped(old(x), direction)
    {
      if direction == "left" && x > 0 {
        x := x - speed;
      }
      if direction == "right" && x < ScreenWidth - width {
        x := x + speed;
      }
    }

    /** Paddle.get_rect. */
    function GetRect(): (r: Rect)
      reads this
      ensures r == PaddleRect(x)
    {
      Rect(x as real, y as real, width as real, height as real)
    }
  }
}
