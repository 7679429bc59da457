/** The fixed configuration of one Breakout session, as the game object
    initialises it: the arena (canvas) size, the ball, the brick grid and the
    paddle.  Every quantity of the shipped configuration is an integer, so the
    model works over `int` throughout. */
module Config {

  /** Arena (canvas) size in pixels. */
  const Width: int := 1280
  const Height: int := 720

  /** The ball: its radius, the speed it is launched with on each axis, and how
      far above the bottom edge it is placed on a reset. */
  const BallRadius: int := 10
  const BallVelocity: int := 4
  const BallLaunchHeight: int := 50

  /** The brick grid: the gap around every brick and the grid's dimensions. */
  const BrickMargin: int := 40
  const Rows: nat := 5
  const Columns: nat := 9

  /** The paddle: its size and the distance one key press moves it. */
  const PaddleWidth: int := 120
  const PaddleHeight: int := 10
  const PaddleVelocity: int := 30

  /** Lives at the start of a session. */
  const InitialLives: int := 3

  /** The smallest integer not below the rational a / b: the game takes the
      ceiling of a quotient when it sizes the bricks. */
  function CeilDiv(a: int, b: int): (r: int)
    requires b > 0
    ensures (r - 1) * b < a <= r * b
  {
    var q := (-a) / b;
    assert -a == q * b + (-a) % b;
    -q
  }

  /** The ceiling is the only integer with that property. */
  lemma CeilDivUnique(a: int, b: int, q: int)
    requires b > 0
    requires (q - 1) * b < a <= q * b
    ensures q == CeilDiv(a, b)
  {
    var r := CeilDiv(a, b);
    if q < r {
      ScaleMonotone(q, r - 1, b);
      assert false;
    } else if r < q {
      ScaleMonotone(r, q - 1, b);
      assert false;
    }
  }

  /** Multiplying by a positive factor keeps the order of two integers. */
  lemma ScaleMonotone(x: int, y: int, b: int)
    requires x <= y && b > 0
    ensures x * b <= y * b
  {
    var k := y - x;
    assert y * b == x * b + k * b;
  }
}
