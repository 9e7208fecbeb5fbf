/** The screen and the rectangle geometry every entity of the game shares. */
module Arena {
  const ScreenWidth: int := 800
  const ScreenHeight: int := 600

  /** A pygame.Rect: left/top corner and size. pygame keeps integers; the model
      keeps exact reals, so the ball's box needs no rounding. */
  datatype Rect = Rect(left: real, top: real, width: real, height: real)

  /** Rect.colliderect: the two rectangles overlap on an open interval of each axis. */
  predicate Collide(a: Rect, b: Rect) {
    a.left < b.left + b.width && b.left < a.left + a.width &&
    a.top < b.top + b.height && b.top < a.top + a.height
  }
}
