/** The rules engine: what one call of Game.handle_collisions does to a session, and
    the session invariant it keeps while the game is in play. */
module Rules {
  import opened Arena
  import opened BallModel
  import opened PaddleModel
  import opened BrickModel

  /** A session as a value. Each remaining brick is named by its grid cell
      (row * 10 + column), in the order of the brick list. */
  datatype World = World(ball: BallState, paddleX: int, bricks: seq<int>,
                         score: int, lives: int, gameOver: bool, win: bool)

  const BrickPoints: int := 10
  const StartLives: int := 3
  /** The largest horizontal speed a hit at the very rim of the paddle gives. */
  const DeflectionScale: real := 7.0

  /** Neither terminal flag is set. */
  predicate Playing(w: World) {
    !w.gameOver && !w.win
  }

  /** The box around the ball: its centre minus the radius, 20 x 20. */
  function BallBox(b: BallState): (r: Rect)
    ensures r.left + r.width / 2.0 == b.x && r.top + r.height / 2.0 == b.y
    ensures r.width == (2 * Radius) as real && r.height == (2 * Radius) as real
  {
    Rect(b.x - Radius as real, b.y - Radius as real, (Radius * 2) as real, (Radius * 2) as real)
  }

  /** The horizontal speed after a paddle hit: the offset of the ball's centre from the
      paddle's centre, relative to half the paddle's width, scaled by 7. */
  function Deflection(ballX: real, paddleX: int): (r: real)
    ensures r < 0.0 <==> ballX < (paddleX + PaddleWidth / 2) as real
    ensures r > 0.0 <==> ballX > (paddleX + PaddleWidth / 2) as real
  {
    (ballX - (paddleX + PaddleWidth / 2) as real) / (PaddleWidth as real / 2.0) * DeflectionScale
  }

  /** A hit at the paddle's centre rebounds straight up. */
  lemma CentreHitIsVertical(paddleX: int)
    ensures Deflection((paddleX + PaddleWidth / 2) as real, paddleX) == 0.0
  {
  }

  /** A hit with the ball's centre over the paddle's left edge leaves at -7. */
  lemma LeftEdgeHit(paddleX: int)
    ensures Deflection(paddleX as real, paddleX) == -DeflectionScale
  {
  }

  /** The paddle bounce: only when the ball's box overlaps the paddle and the ball is
      moving down, its vertical speed is reversed and its horizontal speed is
      replaced by the deflection. */
  function PaddleBounce(b: BallState, paddleX: int): (r: BallState)
    ensures r.x == b.x && r.y == b.y
    ensures Collide(BallBox(b), PaddleRect(paddleX)) && b.speedY > 0.0 ==>
              r.speedY == -b.speedY && r.speedY < 0.0 && r.speedX == Deflection(b.x, paddleX)
    ensures !(Collide(BallBox(b), PaddleRect(paddleX)) && b.speedY > 0.0) ==> r == b
  {
    if Collide(BallBox(b), PaddleRect(paddleX)) && b.speedY > 0.0 then
      b.(speedY := -b.speedY, speedX := Deflection(b.x, paddleX))
    else b
  }

  /** A ball whose box overlaps the paddle has its centre within 60 of the paddle's
      centre, so the deflection is below 8.4 in magnitude. */
  lemma DeflectionBounded(b: BallState, paddleX: int)
    requires Collide(BallBox(b), PaddleRect(paddleX))
    ensures Abs(Deflection(b.x, paddleX)) < MaxSpeedX
  {
  }

  /** The bound 7 is not the largest deflection: a ball whose centre is 59 right of
      the paddle's centre still overlaps it and leaves faster than 7. */
  lemma RimHitExceedsScale()
    ensures var b := BallState((PaddleStartX + 109) as real, PaddleY as real, 0.0, 5.0);
      Collide(BallBox(b), PaddleRect(PaddleStartX)) &&
      PaddleBounce(b, PaddleStartX).speedX > DeflectionScale
  {
  }

  /** The paddle bounce keeps the speeds bounded. */
  lemma PaddleBounceSpeedsBounded(b: BallState, paddleX: int)
    requires SpeedsBounded(b)
    ensures SpeedsBounded(PaddleBounce(b, paddleX))
  {
    if Collide(BallBox(b), PaddleRect(paddleX)) && b.speedY > 0.0 {
      DeflectionBounded(b, paddleX);
    }
  }

  /** The index of the first brick in list order whose cell overlaps the box, or the
      length of the list if there is none. */
  function FirstHit(bricks: seq<int>, box: Rect): (i: nat)
    ensures i <= |bricks|
    ensures forall j :: 0 <= j < i ==> !Collide(box, CellRect(bricks[j]))
    ensures i < |bricks| ==> Collide(box, CellRect(bricks[i]))
  {
    if |bricks| == 0 then 0
    else if Collide(box, CellRect(bricks[0])) then 0
    else 1 + FirstHit(bricks[1..], box)
  }

  /** The first-hit index is the only index with the first-hit property. */
  lemma FirstHitUnique(bricks: seq<int>, box: Rect, i: int)
    requires 0 <= i <= |bricks|
    requires forall j :: 0 <= j < i ==> !Collide(box, CellRect(bricks[j]))
    requires i < |bricks| ==> Collide(box, CellRect(bricks[i]))
    ensures i == FirstHit(bricks, box)
  {
  }

  function RemoveAt(s: seq<int>, i: int): seq<int>
    requires 0 <= i < |s|
  {
    s[..i] + s[i + 1..]
  }

  /** The brick loop: the first overlapping brick is removed, scores 10 and reverses
      the ball's vertical speed; no later brick is looked at. */
  function BrickStage(w: World, box: Rect): (r: World)
    ensures r.paddleX == w.paddleX && r.lives == w.lives && r.gameOver == w.gameOver && r.win == w.win
    ensures r.ball.x == w.ball.x && r.ball.y == w.ball.y && r.ball.speedX == w.ball.speedX
    ensures r.bricks == w.bricks <==> forall j :: 0 <= j < |w.bricks| ==> !Collide(box, CellRect(w.bricks[j]))
    ensures r.bricks == w.bricks ==> r == w
    ensures r.bricks != w.bricks ==>
      |r.bricks| + 1 == |w.bricks| && r.score == w.score + BrickPoints && r.ball.speedY == -w.ball.speedY
  {
    var i := FirstHit(w.bricks, box);
    if i < |w.bricks| then
      w.(bricks := RemoveAt(w.bricks, i), score := w.score + BrickPoints,
         ball := w.ball.(speedY := -w.ball.speedY))
    else w
  }

  /** The bottom check: a ball below the screen costs a life, then either relaunches
      or ends the game. */
  function LifeStage(w: World, relaunch: bool): (r: World)
    ensures r.bricks == w.bricks && r.score == w.score && r.win == w.win && r.paddleX == w.paddleX
    ensures w.ball.y <= ScreenHeight as real ==> r == w
    ensures w.ball.y > ScreenHeight as real ==>
      r.lives == w.lives - 1 &&
      (r.lives > 0 ==> r.ball == Launch(relaunch) && r.gameOver == w.gameOver) &&
      (r.lives <= 0 ==> r.ball == w.ball && r.gameOver)
  {
    if w.ball.y > ScreenHeight as real then
      var lives := w.lives - 1;
      if lives > 0 then w.(lives := lives, ball := Launch(relaunch))
      else w.(lives := lives, gameOver := true)
    else w
  }

  /** The win check: an empty brick list sets the win flag. */
  function WinStage(w: World): (r: World)
    ensures r.win == (w.win || w.bricks == [])
    ensures r.(win := w.win) == w
  {
    if |w.bricks| == 0 then w.(win := true) else w
  }

  /** Game.handle_collisions: paddle bounce, one brick, life loss, win check, in that
      order. The ball's box is taken once, before the paddle bounce; `relaunch` is the
      random direction Ball.reset would pick. */
  function Collisions(w: World, relaunch: bool): (r: World)
    ensures r.paddleX == w.paddleX
    ensures |r.bricks| <= |w.bricks| <= |r.bricks| + 1
    ensures r.score == w.score + BrickPoints * (|w.bricks| - |r.bricks|)
    ensures r.lives == w.lives || r.lives == w.lives - 1
    ensures r.win <==> w.win || r.bricks == []
  {
    var box := BallBox(w.ball);
    WinStage(LifeStage(BrickStage(w.(ball := PaddleBounce(w.ball, w.paddleX)), box), relaunch))
  }

  /** At most one brick leaves per call: the list is unchanged exactly when no brick
      overlaps the ball's box; otherwise the first overlapping one, in list order, is
      removed and all others keep their order. */
  lemma CollisionsRemoveFirstHit(w: World, relaunch: bool)
    ensures var r, box := Collisions(w, relaunch), BallBox(w.ball);
      (r.bricks == w.bricks <==> forall j :: 0 <= j < |w.bricks| ==> !Collide(box, CellRect(w.bricks[j]))) &&
      (r.bricks != w.bricks ==>
        var i := FirstHit(w.bricks, box);
        i < |w.bricks| && Collide(box, CellRect(w.bricks[i])) &&
        (forall j :: 0 <= j < i ==> !Collide(box, CellRect(w.bricks[j]))) &&
        r.bricks == w.bricks[..i] + w.bricks[i + 1..])
  {
  }

  /** The score rises by exactly 10 when a brick is removed and is otherwise unchanged. */
  lemma CollisionsScore(w: World, relaunch: bool)
    ensures var r := Collisions(w, relaunch);
      (|r.bricks| == |w.bricks| && r.score == w.score) ||
      (|r.bricks| == |w.bricks| - 1 && r.score == w.score + BrickPoints)
  {
  }

  /** Unless the ball is relaunched, its vertical speed after the call is the one after
      the paddle bounce, reversed exactly when a brick was removed. */
  lemma CollisionsBrickReversesBall(w: World, relaunch: bool)
    requires w.ball.y <= ScreenHeight as real || w.lives <= 1
    ensures var r, b := Collisions(w, relaunch), PaddleBounce(w.ball, w.paddleX);
      r.ball.speedY == if |r.bricks| < |w.bricks| then -b.speedY else b.speedY
  {
  }

  /** Lives: untouched while the ball is on screen; once it falls below, exactly one is
      lost, and the ball is relaunched if any remain, otherwise the game is over and
      the ball stays where it is. */
  lemma CollisionsLives(w: World, relaunch: bool)
    ensures var r := Collisions(w, relaunch);
      (w.ball.y <= ScreenHeight as real ==> r.lives == w.lives && r.gameOver == w.gameOver) &&
      (w.ball.y > ScreenHeight as real ==>
        r.lives == w.lives - 1 &&
        (r.lives > 0 ==> r.ball == Launch(relaunch) && r.gameOver == w.gameOver) &&
        (r.lives <= 0 ==> r.gameOver && r.ball.x == w.ball.x && r.ball.y == w.ball.y))
  {
  }

  /** The win flag is set exactly when the list is empty after the call (and never
      cleared); the paddle never moves. */
  lemma CollisionsWin(w: World, relaunch: bool)
    ensures var r := Collisions(w, relaunch);
      r.win == (w.win || r.bricks == []) && r.paddleX == w.paddleX
  {
  }

  /** The remaining bricks are distinct grid cells kept in creation order. */
  predicate CellsOrdered(cells: seq<int>) {
    (forall i :: 0 <= i < |cells| ==> 0 <= cells[i] < CellCount) &&
    (forall i, j :: 0 <= i < j < |cells| ==> cells[i] < cells[j])
  }

  /** Strictly increasing cells below 50: the k-th is at least k. */
  lemma {:induction false} OrderedCellsGrow(cells: seq<int>, k: int)
    requires CellsOrdered(cells) && 0 <= k < |cells|
    ensures cells[k] >= k
  {
    if k > 0 {
      OrderedCellsGrow(cells, k - 1);
    }
  }

  /** So there are never more than 50 of them. */
  lemma OrderedCellsFit(cells: seq<int>)
    requires CellsOrdered(cells)
    ensures |cells| <= CellCount
  {
    if |cells| > 0 {
      OrderedCellsGrow(cells, |cells| - 1);
    }
  }

  lemma RemoveKeepsOrdered(cells: seq<int>, i: int)
    requires CellsOrdered(cells) && 0 <= i < |cells|
    ensures CellsOrdered(RemoveAt(cells, i))
  {
    var r := RemoveAt(cells, i);
    assert forall k :: 0 <= k < |r| ==> r[k] == cells[if k < i then k else k + 1];
  }

  /** The remaining bricks never overlap one another. */
  lemma BricksPairwiseDisjoint(cells: seq<int>)
    requires CellsOrdered(cells)
    ensures forall i, j :: 0 <= i < |cells| && 0 <= j < |cells| && i != j ==>
              !Collide(CellRect(cells[i]), CellRect(cells[j]))
  {
    forall i, j | 0 <= i < |cells| && 0 <= j < |cells| && i != j
      ensures !Collide(CellRect(cells[i]), CellRect(cells[j]))
    {
      CellsDisjoint(cells[i], cells[j]);
    }
  }

  /** A ball whose box spans the gap between the first two bricks of the top row
      overlaps both, yet only the first of them is removed and the score rises by 10. */
  lemma TwoBricksOneHit(relaunch: bool)
    ensures var w := World(BallState(97.5, 60.0, 0.0, -5.0), PaddleStartX, [0, 1], 0, 3, false, false);
      var r := Collisions(w, relaunch);
      Collide(BallBox(w.ball), CellRect(0)) && Collide(BallBox(w.ball), CellRect(1)) &&
      r.bricks == [1] && r.score == BrickPoints && r.ball.speedY == 5.0
  {
  }

  /** The session invariant from Game.reset_game on, while the game runs:
      score and bricks account for each other, the lives and the flags agree, the
      flags exclude each other, and ball and paddle stay in their ranges. */
  predicate Inv(w: World) {
    CellsOrdered(w.bricks) &&
    w.score + BrickPoints * |w.bricks| == BrickPoints * CellCount &&
    0 <= w.lives <= StartLives &&
    (w.gameOver <==> w.lives == 0) &&
    (w.win <==> w.bricks == []) &&
    !(w.gameOver && w.win) &&
    SpeedsBounded(w.ball) &&
    Reachable(w.paddleX)
  }

  /** Under the invariant the score is a multiple of 10 within [0, 500], and it is 500
      exactly when the game is won. */
  lemma InvScore(w: World)
    requires Inv(w)
    ensures 0 <= w.score <= BrickPoints * CellCount && w.score % BrickPoints == 0
    ensures w.win <==> w.score == BrickPoints * CellCount
  {
    OrderedCellsFit(w.bricks);
  }

  /** The bricks sit in the top band of the screen, so a ball below the screen
      overlaps none of them. */
  lemma NoBrickHitBelowScreen(w: World)
    requires CellsOrdered(w.bricks) && w.ball.y > ScreenHeight as real
    ensures FirstHit(w.bricks, BallBox(w.ball)) == |w.bricks|
  {
    var box := BallBox(w.ball);
    forall j | 0 <= j < |w.bricks|
      ensures !Collide(box, CellRect(w.bricks[j]))
    {
      CellInsideScreen(w.bricks[j]);
    }
    FirstHitUnique(w.bricks, box, |w.bricks|);
  }

  /** The cells of a fresh session: all 50, in creation order. */
  function AllCells(): (cells: seq<int>)
    ensures CellsOrdered(cells) && |cells| == CellCount
  {
    seq(CellCount, k => k)
  }

  /** Game.reset_game as a value: the ball launched from the centre, the paddle at its
      start, the full grid, score 0, 3 lives, neither flag. */
  function NewSession(right: bool): (w: World)
    ensures Inv(w) && Playing(w)
    ensures w.score == 0 && w.lives == StartLives && |w.bricks| == CellCount
  {
    LaunchSpeedsBounded(right);
    StartReachable();
    World(Launch(right), PaddleStartX, AllCells(), 0, StartLives, false, false)
  }

  /** The brick loop keeps the grid ordered and the score accounting, changes only the
      ball's vertical speed, and removes a brick only from a ball on screen. */
  lemma BrickStageKeeps(w: World, box: Rect)
    requires Inv(w) && box == BallBox(w.ball)
    ensures var r := BrickStage(w, box);
      CellsOrdered(r.bricks) &&
      r.score + BrickPoints * |r.bricks| == BrickPoints * CellCount &&
      r.lives == w.lives && r.gameOver == w.gameOver && r.win == w.win &&
      r.paddleX == w.paddleX && r.ball.y == w.ball.y && SpeedsBounded(r.ball) &&
      (|r.bricks| < |w.bricks| ==> w.ball.y <= ScreenHeight as real) &&
      |r.bricks| >= |w.bricks| - 1
  {
    var i := FirstHit(w.bricks, box);
    if i < |w.bricks| {
      RemoveKeepsOrdered(w.bricks, i);
      if w.ball.y > ScreenHeight as real {
        NoBrickHitBelowScreen(w);
      }
    }
  }

  /** While the game is in play, each call of handle_collisions keeps the invariant;
      in particular a brick hit and a life loss never happen in the same call, so
      game over and win are never set together. */
  lemma CollisionsKeepInv(w: World, relaunch: bool)
    requires Inv(w) && Playing(w)
    ensures Inv(Collisions(w, relaunch))
  {
    var box := BallBox(w.ball);
    var w1 := w.(ball := PaddleBounce(w.ball, w.paddleX));
    PaddleBounceSpeedsBounded(w.ball, w.paddleX);
    assert Inv(w1);
    BrickStageKeeps(w1, box);
    LaunchSpeedsBounded(relaunch);
  }
}
