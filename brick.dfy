/** Bricks and the 5 x 10 grid they are laid out on. */
module BrickModel {
  import opened Arena

  /** The row colours: red, yellow, green, blue, orange from the top row down. */
  datatype Color = Red | Yellow | Green | Blue | Orange

  const Rows: int := 5
  const Cols: int := 10
  const BrickWidth: int := 70
  const BrickHeight: int := 20
  const Spacing: int := 5
  /** The grid is centred: (800 - 10 * 75) / 2 == 25. */
  const StartX: int := (ScreenWidth - Cols * (BrickWidth + Spacing)) / 2
  const StartY: int := 50
  const Colors: seq<Color> := [Red, Yellow, Green, Blue, Orange]
  const CellCount: int := Rows * Cols

  /** The rectangle of a brick whose corner is at (x, y). */
  function BrickRect(x: int, y: int): Rect {
    Rect(x as real, y as real, BrickWidth as real, BrickHeight as real)
  }

  /** Cell k of the grid is the k-th brick created: row k / 10, column k % 10. */
  function CellRect(k: int): (r: Rect)
    ensures r.width == BrickWidth as real && r.height == BrickHeight as real
  {
    var row, col := k / Cols, k % Cols;
    BrickRect(StartX + col * (BrickWidth + Spacing), StartY + row * (BrickHeight + Spacing))
  }

  /** The colour of cell k is chosen by its row. */
  function CellColor(k: int): (c: Color)
    ensures 0 <= k < CellCount ==> c == Colors[k / Cols]
  {
    Colors[(k / Cols) % |Colors|]
  }

  /** The cell of row `row`, column `col`. */
  lemma CellOf(row: int, col: int)
    requires 0 <= row < Rows && 0 <= col < Cols
    ensures 0 <= row * Cols + col < CellCount
    ensures (row * Cols + col) / Cols == row && (row * Cols + col) % Cols == col
  {
  }

  /** Two different cells of the grid never overlap: neighbours in a row are 5 apart
      horizontally and neighbouring rows 5 apart vertically. */
  lemma CellsDisjoint(i: int, j: int)
    requires 0 <= i < CellCount && 0 <= j < CellCount && i != j
    ensures !Collide(CellRect(i), CellRect(j))
  {
  }

  /** Every cell lies within the screen: horizontally within [0, 800], vertically
      in the top band [0, 170]. */
  lemma CellInsideScreen(k: int)
    requires 0 <= k < CellCount
    ensures 0.0 <= CellRect(k).left && CellRect(k).left + CellRect(k).width <= ScreenWidth as real
    ensures 0.0 <= CellRect(k).top && CellRect(k).top + CellRect(k).height <= 170.0
  {
  }

  /** pygame's Brick: its geometry is fixed at construction; only `visible` changes. */
  class Brick {
    const width: int := BrickWidth
    const height: int := BrickHeight
    const x: int
    const y: int
    const color: Color
    const rect: Rect
    var visible: bool

    /** Brick.__init__: a visible 70 x 20 brick with its corner at (x, y). */
    constructor (x: int, y: int, color: Color)
      ensures this.x == x && this.y == y && this.color == color
      ensures rect == BrickRect(x, y) && visible
    {
      this.x := x;
      this.y := y;
      this.color := color;
      rect := Rect(x as real, y as real, width as real, height as real);
      visible := true;
    }
  }
}
