/** The ball: its kinematic state, one step of motion and the relaunch. */
module BallModel {
  import opened Arena

  const Radius: int := 10
  /** The magnitude of both launch speeds. */
  const LaunchSpeed: real := 5.0
  /** The largest |speed_x| a paddle deflection can produce is below this bound. */
  const MaxSpeedX: real := 8.4

  /** The ball's centre and velocity. */
  datatype BallState = BallState(x: real, y: real, speedX: real, speedY: real)

  function Abs(r: real): real { if r < 0.0 then -r else r }

  /** The side walls: the ball's centre is within one radius of the left or right edge. */
  predicate AtSideWall(x: real) {
    x <= Radius as real || x >= (ScreenWidth - Radius) as real
  }

  /** The ceiling: the ball's centre is within one radius of the top edge. */
  predicate AtCeiling(y: real) {
    y <= Radius as real
  }

  /** Ball.move: advance by the velocity, then reverse the horizontal speed at a side
      wall and the vertical speed at the ceiling. There is no floor. */
  function Moved(b: BallState): (r: BallState)
    ensures r.x == b.x + b.speedX && r.y == b.y + b.speedY
    ensures Abs(r.speedX) == Abs(b.speedX) && Abs(r.speedY) == Abs(b.speedY)
    ensures r.speedX == if AtSideWall(r.x) then -b.speedX else b.speedX
    ensures r.speedY == if AtCeiling(r.y) then -b.speedY else b.speedY
  {
    var x := b.x + b.speedX;
    var y := b.y + b.speedY;
    BallState(x, y, if AtSideWall(x) then -b.speedX else b.speedX,
                    if AtCeiling(y) then -b.speedY else b.speedY)
  }

  /** Ball.reset (and a new Ball at the centre): the centre of the screen, moving up
      at 5 and sideways at 5 in the direction the random choice picked. */
  function Launch(right: bool): (r: BallState)
    ensures r.x == (ScreenWidth / 2) as real && r.y == (ScreenHeight / 2) as real
    ensures r.speedY == -LaunchSpeed
    ensures r.speedX == LaunchSpeed <==> right
    ensures r.speedX == -LaunchSpeed <==> !right
  {
    BallState((ScreenWidth / 2) as real, (ScreenHeight / 2) as real,
              if right then LaunchSpeed else -LaunchSpeed, -LaunchSpeed)
  }

  /** The speeds a ball can have during play: vertical speed always +-5, horizontal
      speed below the deflection bound in magnitude. */
  predicate SpeedsBounded(b: BallState) {
    Abs(b.speedY) == LaunchSpeed && Abs(b.speedX) < MaxSpeedX
  }

  lemma LaunchSpeedsBounded(right: bool)
    ensures SpeedsBounded(Launch(right))
  {
  }

  /** A step of motion keeps the speeds bounded: reflection only changes signs. */
  lemma MovedSpeedsBounded(b: BallState)
    requires SpeedsBounded(b)
    ensures SpeedsBounded(Moved(b))
  {
  }

  /** A reflection at a wall sends the ball back into the screen: moving left into the
      left wall it comes out moving right, and so on for the right wall and the ceiling. */
  lemma ReflectionTurnsInward(b: BallState)
    ensures var r := Moved(b);
      (r.x <= Radius as real && b.speedX < 0.0 ==> r.speedX > 0.0) &&
      (r.x >= (ScreenWidth - Radius) as real && b.speedX > 0.0 ==> r.speedX < 0.0) &&
      (AtCeiling(r.y) && b.speedY < 0.0 ==> r.speedY > 0.0)
  {
  }

  /** pygame's Ball: the radius is fixed at construction; position and velocity change. */
  class Ball {
    var x: real
    var y: real
    const radius: int := Radius
    var speedX: real
    var speedY: real

    function State(): BallState
      reads this
    {
      BallState(x, y, speedX, speedY)
    }

    /** Ball.__init__: the given centre, launched up and to the side the random choice picked. */
    constructor (x: real, y: real, right: bool)
      ensures State() == BallState(x, y, Launch(right).speedX, Launch(right).speedY)
    {
      this.x := x;
      this.y := y;
      speedX := LaunchSpeed * (if right then 1.0 else -1.0);
      speedY := -LaunchSpeed;
    }

    method Move()
      modifies this
      ensures State() == Moved(old(State()))
    {
      x := x + speedX;
      y := y + speedY;
      if x <= radius as real || x >= (ScreenWidth - radius) as real {
        speedX := speedX * -1.0;
      }
      if y <= radius as real {
        speedY := speedY * -1.0;
      }
    }

    /** Ball.reset: whatever the previous state, the ball is relaunched from the centre. */
    method Reset(right: bool)
      modifies this
      ensures State() == Launch(right)
    {
      x := (ScreenWidth / 2) as real;
      y := (ScreenHeight / 2) as real;
      speedX := LaunchSpeed * (if right then 1.0 else -1.0);
      speedY := -LaunchSpeed;
    }
  }
}
