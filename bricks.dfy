/** Bricks: the record every brick is, the deterministic grid the game lays
    out at start-up, and the bookkeeping of one pass of the brick collision
    check (which bricks it destroys and how many). */
module Bricks {
  import opened Config

  /** One brick: its box (top-left corner and size) and whether the ball has
      destroyed it.  A destroyed brick stays in the collection. */
  datatype Brick = Brick(x: int, y: int, width: int, height: int, isDestroyed: bool)

  /** Brick width: the ceiling of the arena width left after the column
      margins, shared among the columns. */
  function BrickWidth(): int {
    CeilDiv(Width - (Columns + 1) * BrickMargin, Columns)
  }

  /** Brick height: the ceiling of the upper half of the arena left after the
      row margins, shared among the rows.  The game divides the rational
      Height / 2 - (Rows + 1) * BrickMargin by Rows; that quotient equals
      (Height - 2 * (Rows + 1) * BrickMargin) / (2 * Rows), whose ceiling is
      taken here on integers. */
  function BrickHeight(): int {
    CeilDiv(Height - 2 * (Rows + 1) * BrickMargin, 2 * Rows)
  }

  /** The brick the layout puts at column `col`, row `row`, not destroyed. */
  function BrickAt(col: int, row: int): Brick {
    Brick(col * BrickWidth() + BrickMargin * col + BrickMargin,
          row * BrickHeight() + BrickMargin * row + BrickMargin,
          BrickWidth(), BrickHeight(), false)
  }

  /** The whole brick grid of a session in the order the nested set-up loops
      append it: column by column, each column top to bottom, so brick i is
      the one of column i / Rows, row i % Rows. */
  function Layout(): (l: seq<Brick>)
    ensures |l| == Columns * Rows
  {
    seq(Columns * Rows, i => BrickAt(i / Rows, i % Rows))
  }

  /** The brick for column `col`, row `row` is at index col * Rows + row; it
      sits at x = col * (w + margin) + margin, y = row * (h + margin) + margin
      with the computed brick size, and is not destroyed. */
  lemma LayoutAt(col: nat, row: nat)
    requires col < Columns && row < Rows
    ensures col * Rows + row < |Layout()|
    ensures Layout()[col * Rows + row]
         == Brick(col * (BrickWidth() + BrickMargin) + BrickMargin,
                  row * (BrickHeight() + BrickMargin) + BrickMargin,
                  BrickWidth(), BrickHeight(), false)
  {
    var i := col * Rows + row;
    assert i / Rows == col && i % Rows == row;
    assert col * (BrickWidth() + BrickMargin) == col * BrickWidth() + BrickMargin * col;
    assert row * (BrickHeight() + BrickMargin) == row * BrickHeight() + BrickMargin * row;
  }

  /** With the shipped configuration the grid holds 45 bricks, 98 by 24. */
  lemma DefaultLayout()
    ensures |Layout()| == 45
    ensures BrickWidth() == 98 && BrickHeight() == 24
  {
    CeilDivUnique(Width - (Columns + 1) * BrickMargin, Columns, 98);
    CeilDivUnique(Height - 2 * (Rows + 1) * BrickMargin, 2 * Rows, 24);
  }

  /** The ball's square (centre plus or minus the radius) strictly overlaps the
      brick's box: all four half-plane tests of the brick check hold. */
  predicate BallOverlapsBrick(x: int, y: int, b: Brick) {
    && x + BallRadius > b.x
    && x - BallRadius < b.x + b.width
    && y - BallRadius < b.y + b.height
    && y + BallRadius > b.y
  }

  /** The ball at (x, y) hits a brick that is still standing. */
  predicate Hits(x: int, y: int, b: Brick) {
    BallOverlapsBrick(x, y, b) && !b.isDestroyed
  }

  /** The brick after the collision check has looked at it. */
  function Strike(x: int, y: int, b: Brick): Brick {
    if Hits(x, y, b) then b.(isDestroyed := true) else b
  }

  /** All bricks after one collision pass with the ball at (x, y). */
  function StrikeAll(x: int, y: int, bs: seq<Brick>): (r: seq<Brick>)
    ensures |r| == |bs|
  {
    seq(|bs|, i requires 0 <= i < |bs| => Strike(x, y, bs[i]))
  }

  /** How many standing bricks the ball at (x, y) hits. */
  function HitCount(x: int, y: int, bs: seq<Brick>): nat {
    if |bs| == 0 then 0
    else HitCount(x, y, bs[..|bs| - 1]) + (if Hits(x, y, bs[|bs| - 1]) then 1 else 0)
  }

  /** How many bricks are destroyed. */
  function DestroyedCount(bs: seq<Brick>): nat {
    if |bs| == 0 then 0
    else DestroyedCount(bs[..|bs| - 1]) + (if bs[|bs| - 1].isDestroyed then 1 else 0)
  }

  /** `v` negated once per hit: negated exactly when the number of hits is odd. */
  function Flip(v: int, hits: nat): int {
    if hits % 2 == 0 then v else -v
  }

  /** One more hit negates the flipped value once more. */
  lemma FlipAgain(v: int, hits: nat)
    ensures Flip(v, hits + 1) == -Flip(v, hits)
  {
  }

  /** A pass destroys exactly the standing bricks the ball overlaps, keeps
      destroyed bricks destroyed and moves no brick. */
  lemma StrikeAllAt(x: int, y: int, bs: seq<Brick>, i: int)
    requires 0 <= i < |bs|
    ensures StrikeAll(x, y, bs)[i].(isDestroyed := false) == bs[i].(isDestroyed := false)
    ensures StrikeAll(x, y, bs)[i].isDestroyed == (bs[i].isDestroyed || BallOverlapsBrick(x, y, bs[i]))
  {
  }

  /** Extending a pass by one brick: the struck prefix grows by that brick,
      struck, and the hit count by one exactly when it is hit. */
  lemma StrikeStep(x: int, y: int, bs: seq<Brick>, i: int)
    requires 0 <= i < |bs|
    ensures StrikeAll(x, y, bs[..i + 1]) == StrikeAll(x, y, bs[..i]) + [Strike(x, y, bs[i])]
    ensures HitCount(x, y, bs[..i + 1]) == HitCount(x, y, bs[..i]) + (if Hits(x, y, bs[i]) then 1 else 0)
  {
    assert bs[..i + 1][..i] == bs[..i];
  }

  lemma {:induction false} DestroyedCountBound(bs: seq<Brick>)
    ensures DestroyedCount(bs) <= |bs|
  {
    if |bs| > 0 {
      DestroyedCountBound(bs[..|bs| - 1]);
    }
  }

  lemma {:induction false} NoneDestroyed(bs: seq<Brick>)
    requires forall i :: 0 <= i < |bs| ==> !bs[i].isDestroyed
    ensures DestroyedCount(bs) == 0
  {
    if |bs| > 0 {
      NoneDestroyed(bs[..|bs| - 1]);
    }
  }

  /** A fresh layout has no destroyed brick. */
  lemma LayoutUntouched()
    ensures forall i :: 0 <= i < |Layout()| ==> !Layout()[i].isDestroyed
    ensures DestroyedCount(Layout()) == 0
  {
    NoneDestroyed(Layout());
  }

  /** One pass raises the number of destroyed bricks by exactly its hit count. */
  lemma {:induction false} StrikeAllTally(x: int, y: int, bs: seq<Brick>)
    ensures DestroyedCount(StrikeAll(x, y, bs)) == DestroyedCount(bs) + HitCount(x, y, bs)
  {
    if |bs| > 0 {
      var n := |bs| - 1;
      var struck := StrikeAll(x, y, bs);
      assert struck[..n] == StrikeAll(x, y, bs[..n]);
      StrikeAllTally(x, y, bs[..n]);
    }
  }
}
