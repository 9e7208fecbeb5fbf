/** The game session: the per-frame loop of Game.run and the Game object that owns
    the ball, the paddle and the bricks. */
module Session {
  import opened Arena
  import opened BallModel
  import opened PaddleModel
  import opened BrickModel
  import opened Rules

  datatype Key = Space | Escape | OtherKey
  /** The pygame events the loop looks at; every other event is ignored. */
  datatype Event = Quit | KeyDown(key: Key) | OtherEvent

  /** What the outside world supplies for one frame: the queued events, whether a
      left key (LEFT or A) and a right key (RIGHT or D) is held, the random launch
      direction for a restart, and the one for a relaunch after a lost life. */
  datatype Frame = Frame(events: seq<Event>, leftHeld: bool, rightHeld: bool,
                         restartRight: bool, relaunchRight: bool)

  /** A game over or a win: the states that wait for SPACE. */
  predicate Terminal(w: World) {
    w.gameOver || w.win
  }

  /** One event: QUIT and ESC stop the loop; SPACE restarts, but only from a
      terminal state. */
  function HandleEvent(w: World, running: bool, e: Event, restartRight: bool): (r: (World, bool))
    ensures r.1 <==> running && e != Quit && e != KeyDown(Escape)
    ensures r.0 == if Terminal(w) && IsRestart(e) then NewSession(restartRight) else w
  {
    match e
    case Quit => (w, false)
    case KeyDown(key) =>
      var w1 := if key == Space && Terminal(w) then NewSession(restartRight) else w;
      (w1, if key == Escape then false else running)
    case OtherEvent => (w, running)
  }

  /** The event loop of one frame, the events taken in queue order. */
  function Events(w: World, events: seq<Event>, restartRight: bool): (r: (World, bool))
    ensures r.0 == w || r.0 == NewSession(restartRight)
    decreases |events|
  {
    if events == [] then (w, true)
    else
      var (w1, running) := Events(w, events[..|events| - 1], restartRight);
      HandleEvent(w1, running, events[|events| - 1], restartRight)
  }

  /** The paddle keys: left first, then right. */
  function MovePaddle(x: int, f: Frame): (r: int)
    ensures x - PaddleSpeed <= r <= x + PaddleSpeed
    ensures !f.leftHeld && !f.rightHeld ==> r == x
    ensures f.leftHeld && f.rightHeld && 0 < x < ScreenWidth - PaddleWidth ==> r == x
  {
    var x1 := if f.leftHeld then Stepped(x, "left") else x;
    if f.rightHeld then Stepped(x1, "right") else x1
  }

  /** The update of one frame: only while neither flag is set, the paddle moves, the
      ball moves and the collisions are handled. */
  function Physics(w: World, f: Frame): (r: World)
    ensures Terminal(w) ==> r == w
    ensures r.score == w.score + BrickPoints * (|w.bricks| - |r.bricks|)
    ensures |r.bricks| <= |w.bricks| <= |r.bricks| + 1
  {
    if !w.gameOver && !w.win then
      var moved := w.(paddleX := MovePaddle(w.paddleX, f), ball := Moved(w.ball));
      Collisions(moved, f.relaunchRight)
    else w
  }

  /** One pass of the loop in Game.run: the events, then the update; the flag says
      whether the loop goes on. */
  function Step(w: World, f: Frame): (r: (World, bool))
    ensures r.1 <==> forall k :: 0 <= k < |f.events| ==> f.events[k] != Quit && f.events[k] != KeyDown(Escape)
  {
    EventsRunning(w, f.events, f.restartRight);
    var (w1, running) := Events(w, f.events, f.restartRight);
    (Physics(w1, f), running)
  }

  /** Game.run over a finite script of frames: it stops after the frame that asked to
      quit, or when the script ends; the count is the number of frames run. */
  function RunFrames(w: World, frames: seq<Frame>): (r: (World, nat))
    ensures r.1 <= |frames|
    decreases |frames|
  {
    if frames == [] then (w, 0)
    else
      var (w1, running) := Step(w, frames[0]);
      if !running then (w1, 1)
      else
        var (w2, n) := RunFrames(w1, frames[1..]);
        (w2, n + 1)
  }

  /** One frame of a script run from position `i`: the frame's step, then the rest. */
  lemma RunFramesFrom(w: World, frames: seq<Frame>, i: nat)
    requires i < |frames|
    ensures var (w1, running) := Step(w, frames[i]);
      RunFrames(w, frames[i..]) ==
        if running then (RunFrames(w1, frames[i + 1..]).0, RunFrames(w1, frames[i + 1..]).1 + 1)
        else (w1, 1)
  {
    assert frames[i..][0] == frames[i] && frames[i..][1..] == frames[i + 1..];
  }

  predicate IsRestart(e: Event) {
    e == KeyDown(Space)
  }

  /** Outside a terminal state the events never change the session: SPACE is ignored. */
  lemma {:induction false} EventsIgnoredWhilePlaying(w: World, events: seq<Event>, restartRight: bool)
    requires !Terminal(w)
    ensures Events(w, events, restartRight).0 == w
  {
    if events != [] {
      EventsIgnoredWhilePlaying(w, events[..|events| - 1], restartRight);
    }
  }

  /** In a terminal state the events change nothing unless one of them is SPACE. */
  lemma {:induction false} EventsWithoutRestart(w: World, events: seq<Event>, restartRight: bool)
    requires forall k :: 0 <= k < |events| ==> !IsRestart(events[k])
    ensures Events(w, events, restartRight).0 == w
  {
    if events != [] {
      EventsWithoutRestart(w, events[..|events| - 1], restartRight);
    }
  }

  /** From a terminal state, a SPACE anywhere in the queue restarts the session, and
      later SPACEs (now in play) are ignored. */
  lemma {:induction false} EventsRestart(w: World, events: seq<Event>, restartRight: bool)
    requires Terminal(w)
    requires exists k :: 0 <= k < |events| && IsRestart(events[k])
    ensures Events(w, events, restartRight).0 == NewSession(restartRight)
  {
    var prefix := events[..|events| - 1];
    var last := events[|events| - 1];
    if exists k :: 0 <= k < |prefix| && IsRestart(prefix[k]) {
      EventsRestart(w, prefix, restartRight);
    } else {
      EventsWithoutRestart(w, prefix, restartRight);
      assert IsRestart(last);
    }
  }

  /** The loop goes on exactly when no QUIT and no ESC was queued. */
  lemma {:induction false} EventsRunning(w: World, events: seq<Event>, restartRight: bool)
    ensures Events(w, events, restartRight).1 <==>
      forall k :: 0 <= k < |events| ==> events[k] != Quit && events[k] != KeyDown(Escape)
  {
    if events != [] {
      EventsRunning(w, events[..|events| - 1], restartRight);
      assert forall k :: 0 <= k < |events| - 1 ==> events[..|events| - 1][k] == events[k];
    }
  }

  /** The restart gate: the events of a frame leave the session unchanged unless it
      was terminal and SPACE was pressed, and they then start a fresh session. */
  lemma RestartOnlyFromTerminal(w: World, events: seq<Event>, restartRight: bool)
    ensures var r := Events(w, events, restartRight).0;
      r == (if Terminal(w) && exists k :: 0 <= k < |events| && IsRestart(events[k])
            then NewSession(restartRight) else w)
  {
    if !Terminal(w) {
      EventsIgnoredWhilePlaying(w, events, restartRight);
    } else if exists k :: 0 <= k < |events| && IsRestart(events[k]) {
      EventsRestart(w, events, restartRight);
    } else {
      EventsWithoutRestart(w, events, restartRight);
    }
  }

  /** Terminal gating: in a game over or a win, a frame without SPACE changes nothing —
      not the ball, the paddle, the bricks, the score or the lives. */
  lemma TerminalFrameFrozen(w: World, f: Frame)
    requires Terminal(w)
    requires forall k :: 0 <= k < |f.events| ==> !IsRestart(f.events[k])
    ensures Step(w, f).0 == w
  {
    EventsWithoutRestart(w, f.events, f.restartRight);
  }

  /** The paddle keys keep the paddle among its reachable positions. */
  lemma MovePaddleReachable(x: int, f: Frame)
    requires Reachable(x)
    ensures Reachable(MovePaddle(x, f))
  {
    SteppedReachable(x, "left");
    SteppedReachable(if f.leftHeld then Stepped(x, "left") else x, "right");
  }

  /** Every frame keeps the session invariant. */
  lemma StepKeepsInv(w: World, f: Frame)
    requires Inv(w)
    ensures Inv(Step(w, f).0)
  {
    RestartOnlyFromTerminal(w, f.events, f.restartRight);
    var w1 := Events(w, f.events, f.restartRight).0;
    assert Inv(w1);
    if Playing(w1) {
      MovePaddleReachable(w1.paddleX, f);
      MovedSpeedsBounded(w1.ball);
      CollisionsKeepInv(w1.(paddleX := MovePaddle(w1.paddleX, f), ball := Moved(w1.ball)), f.relaunchRight);
    }
  }

  /** The session invariant holds after any run that starts from one where it holds,
      so after any run that starts from Game.reset_game. */
  lemma {:induction false} RunKeepsInv(w: World, frames: seq<Frame>)
    requires Inv(w)
    ensures Inv(RunFrames(w, frames).0)
    decreases |frames|
  {
    if frames != [] {
      var st := Step(w, frames[0]);
      StepKeepsInv(w, frames[0]);
      if st.1 {
        RunKeepsInv(st.0, frames[1..]);
        assert RunFrames(w, frames).0 == RunFrames(st.0, frames[1..]).0;
      }
    }
  }

  /** Score accounting per frame: without a restart the score never decreases, and it
      rises by 10 for each brick that left the list (at most one per frame). */
  lemma StepScore(w: World, f: Frame)
    requires !(Terminal(w) && exists k :: 0 <= k < |f.events| && IsRestart(f.events[k]))
    ensures var r := Step(w, f).0;
      r.score == w.score + BrickPoints * (|w.bricks| - |r.bricks|) &&
      (r.score == w.score || r.score == w.score + BrickPoints)
  {
    RestartOnlyFromTerminal(w, f.events, f.restartRight);
    if Playing(w) {
      var moved := w.(paddleX := MovePaddle(w.paddleX, f), ball := Moved(w.ball));
      CollisionsScore(moved, f.relaunchRight);
    }
  }

  /** The last life: a frame in play with one life left in which the ball ends below
      the screen sets game over with no lives, and the ball stays where it fell. */
  lemma LastLifeEndsGame(w: World, f: Frame)
    requires Inv(w) && Playing(w) && w.lives == 1
    requires Moved(w.ball).y > ScreenHeight as real
    ensures var r := Step(w, f).0;
      r.gameOver && !r.win && r.lives == 0 && r.ball.x == Moved(w.ball).x && r.ball.y == Moved(w.ball).y
  {
    RestartOnlyFromTerminal(w, f.events, f.restartRight);
    StepKeepsInv(w, f);
    var moved := w.(paddleX := MovePaddle(w.paddleX, f), ball := Moved(w.ball));
    CollisionsLives(moved, f.relaunchRight);
  }

  /** The brick list against its grid cells: distinct visible objects, each on the
      cell it was created for with that row's colour, the cells in creation order. */
  ghost predicate OnGrid(bricks: seq<Brick>, cells: seq<int>)
    reads bricks
  {
    |cells| == |bricks| && CellsOrdered(cells) &&
    (forall i, j :: 0 <= i < j < |bricks| ==> bricks[i] != bricks[j]) &&
    (forall k :: 0 <= k < |bricks| ==>
       bricks[k].visible && bricks[k].rect == CellRect(cells[k]) &&
       bricks[k].color == CellColor(cells[k]))
  }

  /** pygame's Game, without the window, the clock and the fonts. */
  class Game {
    var ball: Ball
    var paddle: Paddle
    var bricks: seq<Brick>
    var score: int
    var lives: int
    var gameOver: bool
    var win: bool
    /** The grid cell of each brick in the list. */
    ghost var cells: seq<int>
    ghost var Repr: set<object>

    /** The object invariant: the bricks are distinct visible objects, each on the
        grid cell it was created for, cells in creation order. */
    ghost predicate Valid()
      reads this, bricks
    {
      this in Repr && ball in Repr && paddle in Repr &&
      (forall k :: 0 <= k < |bricks| ==> bricks[k] in Repr) &&
      OnGrid(bricks, cells)
    }

    /** The session as a value. */
    ghost function View(): World
      reads this, ball, paddle
    {
      World(ball.State(), paddle.x, cells, score, lives, gameOver, win)
    }

    /** Game.__init__: a first session. */
    constructor (right: bool)
      ensures Valid() && fresh(Repr)
      ensures View() == NewSession(right)
    {
      ball := new Ball((ScreenWidth / 2) as real, (ScreenHeight / 2) as real, right);
      paddle := new Paddle();
      bricks := [];
      cells := [];
      score := 0;
      lives := StartLives;
      gameOver := false;
      win := false;
      new;
      Repr := {this, ball, paddle};
      CreateBricks();
    }

    /** Game.reset_game: a new ball, paddle and grid; score 0, 3 lives, no flags. */
    method ResetGame(right: bool)
      requires Valid()
      modifies this
      ensures Valid() && fresh(Repr - old(Repr))
      ensures fresh(ball) && fresh(paddle)
      ensures View() == NewSession(right)
    {
      ball := new Ball((ScreenWidth / 2) as real, (ScreenHeight / 2) as real, right);
      paddle := new Paddle();
      bricks := [];
      cells := [];
      score := 0;
      lives := StartLives;
      gameOver := false;
      win := false;
      Repr := {this, ball, paddle};
      CreateBricks();
    }

    /** Game.create_bricks: appends 50 new visible bricks, row by row, each on its grid
        cell with its row's colour. */
    method CreateBricks()
      modifies this
      ensures ball == old(ball) && paddle == old(paddle)
      ensures score == old(score) && lives == old(lives)
      ensures gameOver == old(gameOver) && win == old(win)
      ensures |bricks| == |old(bricks)| + CellCount && bricks[..|old(bricks)|] == old(bricks)
      ensures cells == old(cells) + AllCells()
      ensures forall k :: |old(bricks)| <= k < |bricks| ==>
                fresh(bricks[k]) && bricks[k] in Repr && bricks[k].visible &&
                bricks[k].rect == CellRect(k - |old(bricks)|) &&
                bricks[k].color == CellColor(k - |old(bricks)|)
      ensures forall i, j :: |old(bricks)| <= i < j < |bricks| ==> bricks[i] != bricks[j]
      ensures old(Repr) <= Repr && fresh(Repr - old(Repr))
    {
      var rows := Rows;
      var cols := Cols;
      var brickWidth := BrickWidth;
      var brickHeight := BrickHeight;
      var spacing := Spacing;
      var startX := (ScreenWidth - cols * (brickWidth + spacing)) / 2;
      var startY := 50;
      var colors := Colors;
      ghost var n0 := |bricks|;
      for row := 0 to rows
        invariant |bricks| == n0 + row * cols && |cells| == |old(cells)| + row * cols
        invariant bricks[..n0] == old(bricks)
        invariant cells == old(cells) + AllCells()[..row * cols]
        invariant forall k :: n0 <= k < |bricks| ==>
                    fresh(bricks[k]) && bricks[k] in Repr && bricks[k].visible &&
                    bricks[k].rect == CellRect(k - n0) && bricks[k].color == CellColor(k - n0)
        invariant forall i, j :: n0 <= i < j < |bricks| ==> bricks[i] != bricks[j]
        invariant old(Repr) <= Repr && fresh(Repr - old(Repr))
        invariant ball == old(ball) && paddle == old(paddle)
        invariant score == old(score) && lives == old(lives)
        invariant gameOver == old(gameOver) && win == old(win)
      {
        for col := 0 to cols
          invariant |bricks| == n0 + row * cols + col && |cells| == |old(cells)| + row * cols + col
          invariant bricks[..n0] == old(bricks)
          invariant cells == old(cells) + AllCells()[..row * cols + col]
          invariant forall k :: n0 <= k < |bricks| ==>
                      fresh(bricks[k]) && bricks[k] in Repr && bricks[k].visible &&
                      bricks[k].rect == CellRect(k - n0) && bricks[k].color == CellColor(k - n0)
          invariant forall i, j :: n0 <= i < j < |bricks| ==> bricks[i] != bricks[j]
          invariant old(Repr) <= Repr && fresh(Repr - old(Repr))
          invariant ball == old(ball) && paddle == old(paddle)
          invariant score == old(score) && lives == old(lives)
          invariant gameOver == old(gameOver) && win == old(win)
        {
          var x := startX + col * (brickWidth + spacing);
          var y := startY + row * (brickHeight + spacing);
          var color := colors[row % |colors|];
          CellOf(row, col);
          var brick := new Brick(x, y, color);
          bricks := bricks + [brick];
          cells := cells + [row * cols + col];
          Repr := Repr + {brick};
        }
      }
    }

    /** The scan of the brick loop: the first brick in list order that is visible and
        overlaps the box, or the length of the list if there is none. */
    method FirstVisibleHit(box: Rect) returns (i: int)
      ensures 0 <= i <= |bricks|
      ensures forall j :: 0 <= j < i ==> !(bricks[j].visible && Collide(box, bricks[j].rect))
      ensures i < |bricks| ==> bricks[i].visible && Collide(box, bricks[i].rect)
    {
      i := |bricks|;
      var k := 0;
      while k < |bricks|
        invariant 0 <= k <= |bricks| && i == |bricks|
        invariant forall j :: 0 <= j < k ==> !(bricks[j].visible && Collide(box, bricks[j].rect))
      {
        if bricks[k].visible && Collide(box, bricks[k].rect) {
          i := k;
          break;
        }
        k := k + 1;
      }
    }

    /** The removal in the brick loop: brick i is hidden, leaves the list and scores. */
    method RemoveBrick(i: int)
      requires Valid() && 0 <= i < |bricks|
      modifies this, bricks[i]
      ensures Valid() && Repr == old(Repr)
      ensures ball == old(ball) && paddle == old(paddle)
      ensures lives == old(lives) && gameOver == old(gameOver) && win == old(win)
      ensures bricks == old(bricks[..i] + bricks[i + 1..]) && cells == RemoveAt(old(cells), i)
      ensures score == old(score) + BrickPoints
      ensures !old(bricks[i]).visible
    {
      bricks[i].visible := false;
      bricks := bricks[..i] + bricks[i + 1..];
      cells := RemoveAt(cells, i);
      RemoveKeepsOrdered(old(cells), i);
      score := score + BrickPoints;
      assert forall k :: 0 <= k < |bricks| ==> bricks[k] == old(bricks)[if k < i then k else k + 1];
    }

    /** The paddle bounce of handle_collisions, for the ball's box taken before it. */
    method BounceOffPaddle(ballRect: Rect)
      requires ballRect == BallBox(ball.State())
      modifies ball
      ensures ball.State() == PaddleBounce(old(ball.State()), paddle.x)
    {
      var paddleRect := paddle.GetRect();
      if Collide(ballRect, paddleRect) && ball.speedY > 0.0 {
        ball.speedY := ball.speedY * -1.0;
        var relativeHit := (ball.x - (paddle.x + paddle.width / 2) as real) / (paddleRect.width / 2.0);
        ball.speedX := relativeHit * DeflectionScale;
      }
    }

    /** The brick loop of handle_collisions: at most one brick, the first visible one
        that overlaps the box, is removed. */
    method HitFirstBrick(ballRect: Rect)
      requires Valid()
      modifies this, bricks, ball
      ensures Valid() && Repr == old(Repr)
      ensures View() == BrickStage(old(View()), ballRect)
    {
      var i := FirstVisibleHit(ballRect);
      FirstHitUnique(cells, ballRect, i);
      if i < |bricks| {
        RemoveBrick(i);
        ball.speedY := ball.speedY * -1.0;
      }
    }

    /** The bottom check of handle_collisions. */
    method CheckLifeLost(relaunch: bool)
      requires Valid()
      modifies this, ball
      ensures Valid() && Repr == old(Repr)
      ensures View() == LifeStage(old(View()), relaunch)
    {
      if ball.y > ScreenHeight as real {
        lives := lives - 1;
        if lives > 0 {
          ball.Reset(relaunch);
        } else {
          gameOver := true;
        }
      }
    }

    /** Game.handle_collisions: paddle bounce, one brick, life loss, win check. */
    method HandleCollisions(relaunch: bool)
      requires Valid()
      modifies Repr
      ensures Valid() && Repr == old(Repr)
      ensures View() == Collisions(old(View()), relaunch)
    {
      ghost var w := View();
      var ballRect := Rect(ball.x - ball.radius as real, ball.y - ball.radius as real,
                           (ball.radius * 2) as real, (ball.radius * 2) as real);
      BounceOffPaddle(ballRect);
      HitFirstBrick(ballRect);
      CheckLifeLost(relaunch);
      if |bricks| == 0 {
        win := true;
      }
    }

    /** The event loop of Game.run: QUIT and ESC stop the loop, SPACE restarts from a
        game over or a win. */
    method HandleEvents(events: seq<Event>, restartRight: bool) returns (running: bool)
      requires Valid()
      modifies this
      ensures Valid() && fresh(Repr - old(Repr))
      ensures (View(), running) == Events(old(View()), events, restartRight)
    {
      ghost var w := View();
      running := true;
      var k := 0;
      while k < |events|
        invariant 0 <= k <= |events|
        invariant Valid() && fresh(Repr - old(Repr))
        invariant (View(), running) == Events(w, events[..k], restartRight)
      {
        assert events[..k + 1][..k] == events[..k];
        var event := events[k];
        if event == Quit {
          running := false;
        }
        if event.KeyDown? {
          if event.key == Space && (gameOver || win) {
            ResetGame(restartRight);
          }
          if event.key == Escape {
            running := false;
          }
        }
        k := k + 1;
      }
      assert events[..k] == events;
    }

    /** The update of Game.run: only while neither flag is set, the held keys move the
        paddle, then the ball moves and the collisions are handled. */
    method Update(f: Frame)
      requires Valid()
      modifies Repr
      ensures Valid() && Repr == old(Repr)
      ensures View() == Physics(old(View()), f)
    {
      if !gameOver && !win {
        if f.leftHeld {
          paddle.Move("left");
        }
        if f.rightHeld {
          paddle.Move("right");
        }
        ball.Move();
        HandleCollisions(f.relaunchRight);
      }
    }

    /** One pass of the loop in Game.run: the events, then the update. The result says
        whether the loop goes on. */
    method Tick(f: Frame) returns (running: bool)
      requires Valid()
      modifies Repr
      ensures Valid() && fresh(Repr - old(Repr))
      ensures (View(), running) == Step(old(View()), f)
      ensures old(Inv(View())) ==> Inv(View())
    {
      ghost var w := View();
      running := HandleEvents(f.events, f.restartRight);
      Update(f);
      if Inv(w) {
        StepKeepsInv(w, f);
      }
    }

    /** Game.run over a finite script of frames. */
    method Run(frames: seq<Frame>) returns (count: nat)
      requires Valid()
      modifies Repr
      ensures Valid() && fresh(Repr - old(Repr))
      ensures (View(), count) == RunFrames(old(View()), frames)
    {
      ghost var w := View();
      var running := true;
      count := 0;
      while running && count < |frames|
        invariant 0 <= count <= |frames|
        invariant Valid() && fresh(Repr - old(Repr))
        invariant running ==> RunFrames(w, frames).0 == RunFrames(View(), frames[count..]).0
        invariant running ==> RunFrames(w, frames).1 == RunFrames(View(), frames[count..]).1 + count
        invariant !running ==> count > 0 && RunFrames(w, frames) == (View(), count)
      {
        RunFramesFrom(View(), frames, count);
        running := Tick(frames[count]);
        count := count + 1;
      }
    }
  }
}
