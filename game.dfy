/** The game object and the functions that update it in place.  Each method
    does what the game's own function does, step by step, and its
    postcondition ties the new state to the corresponding function of module
    Rules applied to the old state; the public entry points (a frame and the
    input handlers) also keep the invariant Rules.Valid. */
module Game {
  import opened Config
  import opened Bricks
  import opened Rules

  class GameState {
    var ballX: int
    var ballY: int
    var xSpeed: int
    var ySpeed: int
    var paddleX: int
    var paddleY: int
    var paddleXSpeed: int
    var bricks: seq<Brick>
    var numberOfDestroyedBricks: int
    var score: int
    var lives: int
    var isGameComplete: bool
    var isGameOver: bool
    var isGameStopped: bool
    var isLifeCrashed: bool

    /** The object's state as a value. */
    function Snapshot(): State
      reads this
    {
      State(ballX, ballY, xSpeed, ySpeed, paddleX, paddleY, paddleXSpeed,
            bricks, numberOfDestroyedBricks, score, lives,
            isGameComplete, isGameOver, isGameStopped, isLifeCrashed)
    }

    predicate Valid()
      reads this
    {
      Rules.Valid(Snapshot())
    }

    /** The object as initialised (positions and speeds are unset until the
        set-up functions run; 0 stands for unset), then set up: ball, bricks,
        paddle. */
    constructor ()
      ensures Snapshot() == Initial()
      ensures Valid()
    {
      ballX, ballY, xSpeed, ySpeed := 0, 0, 0, 0;
      paddleX, paddleY, paddleXSpeed := 0, 0, 0;
      bricks := [];
      numberOfDestroyedBricks, score, lives := 0, 0, InitialLives;
      isGameComplete, isGameOver, isGameStopped, isLifeCrashed := false, false, false, false;
      new;
      SetupBallState();
      SetupBricksState();
      SetupPaddleState();
      InitialValid();
    }

    method SetupBallState()
      modifies this
      ensures Snapshot() == ResetBall(old(Snapshot()))
    {
      ballX := Width / 2;
      ballY := Height - BallLaunchHeight;
      xSpeed := BallVelocity;
      ySpeed := -BallVelocity;
    }

    /** Appends the grid, column by column, each column top to bottom. */
    method SetupBricksState()
      modifies this
      ensures Snapshot() == old(Snapshot()).(bricks := old(bricks) + Layout())
    {
      var width := BrickWidth();
      var height := BrickHeight();
      var col := 0;
      while col < Columns
        invariant 0 <= col <= Columns
        invariant bricks == old(bricks) + Layout()[..col * Rows]
        invariant Snapshot() == old(Snapshot()).(bricks := bricks)
      {
        var row := 0;
        while row < Rows
          invariant 0 <= row <= Rows
          invariant bricks == old(bricks) + Layout()[..col * Rows + row]
          invariant Snapshot() == old(Snapshot()).(bricks := bricks)
        {
          var brick := Brick(col * width + BrickMargin * col + BrickMargin,
                             row * height + BrickMargin * row + BrickMargin,
                             width, height, false);
          var k := col * Rows + row;
          assert k / Rows == col && k % Rows == row;
          assert Layout()[..k + 1] == Layout()[..k] + [brick];
          bricks := bricks + [brick];
          row := row + 1;
        }
        col := col + 1;
      }
      assert Layout()[..Columns * Rows] == Layout();
    }

    method SetupPaddleState()
      modifies this
      ensures Snapshot() == ResetPaddle(old(Snapshot()))
    {
      paddleX := (Width - PaddleWidth) / 2;
      paddleY := Height - PaddleHeight;
      paddleXSpeed := PaddleVelocity;
    }

    /** The border check: the first border the ball crosses, in the order
        left, right, top, bottom, takes effect. */
    method DetectBorderGameSpaceCollision()
      modifies this
      ensures Snapshot() == BorderCollision(old(Snapshot()))
    {
      if LeftBorderHit(ballX) {
        xSpeed := -xSpeed;
      } else if RightBorderHit(ballX) {
        xSpeed := -xSpeed;
      } else if TopBorderHit(ballY) {
        ySpeed := -ySpeed;
      } else if BottomBorderHit(ballY) {
        lives := lives - 1;
        if lives < 1 {
          isLifeCrashed := false;
        } else {
          isLifeCrashed := true;
        }
      }
    }

    /** The brick check: one pass over the grid that destroys every standing
        brick the ball overlaps, negating the vertical speed once per hit. */
    method DetectBrickCollision()
      requires |bricks| == Columns * Rows
      modifies this
      ensures Snapshot() == BrickCollision(old(Snapshot()))
    {
      var index := 0;
      ghost var hits := 0;
      while index < Columns * Rows
        invariant 0 <= index <= |bricks| == |old(bricks)|
        invariant bricks[..index] == StrikeAll(ballX, ballY, old(bricks)[..index])
        invariant forall j :: index <= j < |bricks| ==> bricks[j] == old(bricks)[j]
        invariant hits == HitCount(ballX, ballY, old(bricks)[..index])
        invariant ySpeed == Flip(old(ySpeed), hits)
        invariant score == old(score) + hits
        invariant numberOfDestroyedBricks == old(numberOfDestroyedBricks) + hits
        invariant unchanged(this`ballX, this`ballY, this`xSpeed, this`paddleX, this`paddleY, this`paddleXSpeed)
        invariant unchanged(this`lives, this`isGameComplete, this`isGameOver, this`isGameStopped, this`isLifeCrashed)
      {
        StrikeStep(ballX, ballY, old(bricks), index);
        if Hits(ballX, ballY, bricks[index]) {
          FlipAgain(old(ySpeed), hits);
          hits := hits + 1;
        }
        CheckBrick(index);
        assert bricks[..index + 1] == bricks[..index] + [Strike(ballX, ballY, old(bricks)[index])];
        index := index + 1;
      }
      assert bricks[..index] == bricks && old(bricks)[..index] == old(bricks);
    }

    /** The brick check's step for the brick at `index`: a standing brick
        the ball overlaps is destroyed, reflects the ball vertically and
        scores one. */
    method CheckBrick(index: int)
      requires 0 <= index < |bricks|
      modifies this
      ensures bricks == old(bricks)[index := Strike(ballX, ballY, old(bricks)[index])]
      ensures Hits(ballX, ballY, old(bricks)[index]) ==>
                ySpeed == -old(ySpeed) && score == old(score) + 1
                && numberOfDestroyedBricks == old(numberOfDestroyedBricks) + 1
      ensures !Hits(ballX, ballY, old(bricks)[index]) ==>
                ySpeed == old(ySpeed) && score == old(score)
                && numberOfDestroyedBricks == old(numberOfDestroyedBricks)
      ensures unchanged(this`ballX, this`ballY, this`xSpeed, this`paddleX, this`paddleY, this`paddleXSpeed)
      ensures unchanged(this`lives, this`isGameComplete, this`isGameOver, this`isGameStopped, this`isLifeCrashed)
    {
      var brick := bricks[index];
      if BallOverlapsBrick(ballX, ballY, brick) && !brick.isDestroyed {
        ySpeed := -ySpeed;
        bricks := bricks[index := brick.(isDestroyed := true)];
        score := score + 1;
        numberOfDestroyedBricks := numberOfDestroyedBricks + 1;
      }
    }

    /** The paddle check: a vertical reflection while the ball is over the
        paddle. */
    method DetectPaddleCollision()
      modifies this
      ensures Snapshot() == PaddleCollision(old(Snapshot()))
    {
      if BallOverPaddle(ballX, ballY, paddleX, paddleY) {
        ySpeed := -ySpeed;
      }
    }

    method DetectCollision()
      requires |bricks| == Columns * Rows
      modifies this
      ensures Snapshot() == Collide(old(Snapshot()))
    {
      DetectBrickCollision();
      DetectPaddleCollision();
      DetectBorderGameSpaceCollision();
    }

    method UpdateStageGameState()
      modifies this
      ensures Snapshot() == UpdateStage(old(Snapshot()))
    {
      if lives < 1 {
        isGameOver := true;
      } else if numberOfDestroyedBricks == |bricks| {
        isGameComplete := true;
      }
    }

    method UpdateBallState()
      modifies this
      ensures Snapshot() == MoveBall(old(Snapshot()))
    {
      ballX := ballX + xSpeed;
      ballY := ballY + ySpeed;
    }

    /** One tick: move, evaluate the stage, then run the collision checks. */
    method UpdateGameState()
      requires |bricks| == Columns * Rows
      modifies this
      ensures Snapshot() == Tick(old(Snapshot()))
    {
      UpdateBallState();
      UpdateStageGameState();
      DetectCollision();
    }

    /** One frame: a tick, then the decision what to show; the caller runs
        the next frame exactly when the decision is RequestNextFrame. */
    method Render() returns (frame: Frame)
      requires Valid()
      modifies this
      ensures Snapshot() == Tick(old(Snapshot()))
      ensures frame == FrameOutcome(Snapshot())
      ensures Valid()
    {
      TickPreservesValid(Snapshot());
      UpdateGameState();
      if isGameOver {
        frame := ShowGameOver;
      } else if isLifeCrashed {
        frame := ShowCrashedLife;
      } else if isGameComplete {
        frame := ShowGameComplete;
      } else if isGameStopped {
        frame := ShowGameStop;
      } else {
        frame := RequestNextFrame;
      }
    }

    /** The pause key: with Space pressed and none of complete, over or
        crashed holding, a paused game resumes (and a frame runs) and a
        running game pauses; otherwise nothing happens. */
    method StopContinueGame(isSpace: bool) returns (frame: Option<Frame>)
      requires Valid()
      modifies this
      ensures StopContinueRenders(old(Snapshot()), isSpace) ==>
                Snapshot() == Tick(StopContinue(old(Snapshot()), isSpace))
                && frame == Some(FrameOutcome(Snapshot()))
      ensures !StopContinueRenders(old(Snapshot()), isSpace) ==>
                Snapshot() == StopContinue(old(Snapshot()), isSpace) && frame == None
      ensures Valid()
    {
      StopContinueValid(Snapshot(), isSpace);
      if isSpace && isGameStopped && !isGameComplete && !isGameOver && !isLifeCrashed {
        isGameStopped := false;
        var f := Render();
        frame := Some(f);
      } else if isSpace && !isGameStopped && !isGameComplete && !isGameOver && !isLifeCrashed {
        isGameStopped := true;
        frame := None;
      } else {
        frame := None;
      }
    }

    /** Continuing after a lost life: on Space, paddle and ball are reset, the
        crash is cleared and a frame runs; any other key does nothing. */
    method ContinueGameFromCrashedLife(isSpace: bool) returns (frame: Option<Frame>)
      requires Valid()
      modifies this
      ensures isSpace ==>
                Snapshot() == Tick(ResumeAfterCrash(old(Snapshot())))
                && frame == Some(FrameOutcome(Snapshot()))
      ensures !isSpace ==> Snapshot() == old(Snapshot()) && frame == None
      ensures Valid()
    {
      if isSpace {
        ResumeAfterCrashValid(Snapshot());
        SetupPaddleState();
        SetupBallState();
        isLifeCrashed := false;
        var f := Render();
        frame := Some(f);
      } else {
        frame := None;
      }
    }

    /** An arrow key moves the paddle by its speed unless it already touches
        that border. */
    method MovePaddleByKey(key: KeyPress)
      requires Valid()
      modifies this
      ensures Snapshot() == KeyMove(old(Snapshot()), key)
      ensures Valid()
    {
      KeyMoveValid(Snapshot(), key);
      match key
      case RightKey =>
        if !PaddleAtRightBorder(paddleX) {
          paddleX := paddleX + paddleXSpeed;
        }
      case LeftKey =>
        if !PaddleAtLeftBorder(paddleX) {
          paddleX := paddleX - paddleXSpeed;
        }
      case OtherKey =>
    }

    /** A mouse move: the paddle goes to the pointer's x, then is pulled back
        to a border it touches or crosses. */
    method MovePaddleByMouse(mouseX: int)
      requires Valid()
      modifies this
      ensures Snapshot() == MouseMove(old(Snapshot()), mouseX)
      ensures 0 <= paddleX <= Width - PaddleWidth
      ensures Valid()
    {
      MouseMoveValid(Snapshot(), mouseX);
      if !PaddleAtLeftBorder(paddleX) {
        paddleX := mouseX;
      } else if !PaddleAtRightBorder(paddleX) {
        paddleX := mouseX;
      }
      if PaddleAtLeftBorder(paddleX) {
        paddleX := 0;
      } else if PaddleAtRightBorder(paddleX) {
        paddleX := Width - PaddleWidth;
      }
    }
  }
}
