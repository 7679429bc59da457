/** The rules of the game as functions on a snapshot of the game object:
    start-up and resets, one simulation tick (move the ball, evaluate the
    stage, run the brick, paddle and border checks), the decision a frame
    takes after its tick, the frame-by-frame scheduling, and the input
    handlers.  The class in module Game performs each step in place and is
    proved to agree with these functions; the properties of the game are
    stated here, about the functions. */
module Rules {
  import opened Config
  import opened Bricks

  datatype Option<T> = None | Some(value: T)

  /** A snapshot of the game object's mutable state. */
  datatype State = State(
    ballX: int, ballY: int, xSpeed: int, ySpeed: int,
    paddleX: int, paddleY: int, paddleXSpeed: int,
    bricks: seq<Brick>,
    numberOfDestroyedBricks: int, score: int, lives: int,
    isGameComplete: bool, isGameOver: bool, isGameStopped: bool, isLifeCrashed: bool)

  // ---------------------------------------------------------------- set-up

  /** Ball reset: centred horizontally, BallLaunchHeight above the bottom
      edge, launched up and to the right. */
  function ResetBall(s: State): State {
    s.(ballX := Width / 2, ballY := Height - BallLaunchHeight,
       xSpeed := BallVelocity, ySpeed := -BallVelocity)
  }

  /** Paddle reset: centred horizontally, flush with the bottom edge. */
  function ResetPaddle(s: State): State {
    s.(paddleX := (Width - PaddleWidth) / 2, paddleY := Height - PaddleHeight,
       paddleXSpeed := PaddleVelocity)
  }

  /** The game object after start-up: ball, bricks and paddle set up, score 0,
      all lives, no flag raised. */
  function Initial(): State {
    State(Width / 2, Height - BallLaunchHeight, BallVelocity, -BallVelocity,
          (Width - PaddleWidth) / 2, Height - PaddleHeight, PaddleVelocity,
          Layout(), 0, 0, InitialLives, false, false, false, false)
  }

  lemma ResetBallPlacement(s: State)
    ensures ResetBall(s).ballX * 2 == Width
    ensures ResetBall(s).ballX == 640 && ResetBall(s).ballY == 670
    ensures ResetBall(s).xSpeed == 4 && ResetBall(s).ySpeed == -4
    ensures ResetBall(s).(ballX := s.ballX, ballY := s.ballY, xSpeed := s.xSpeed, ySpeed := s.ySpeed) == s
  {
  }

  lemma ResetPaddlePlacement(s: State)
    ensures ResetPaddle(s).paddleX * 2 + PaddleWidth == Width
    ensures ResetPaddle(s).paddleY + PaddleHeight == Height
    ensures ResetPaddle(s).paddleX == 580 && ResetPaddle(s).paddleXSpeed == 30
    ensures ResetPaddle(s).(paddleX := s.paddleX, paddleY := s.paddleY, paddleXSpeed := s.paddleXSpeed) == s
  {
  }

  // ------------------------------------------------------------- one tick

  /** The ball moves by its speed. */
  function MoveBall(s: State): State {
    s.(ballX := s.ballX + s.xSpeed, ballY := s.ballY + s.ySpeed)
  }

  /** Stage evaluation: game over when no life is left, otherwise complete
      when every brick is destroyed.  Never clears a flag. */
  function UpdateStage(s: State): State {
    if s.lives < 1 then s.(isGameOver := true)
    else if s.numberOfDestroyedBricks == |s.bricks| then s.(isGameComplete := true)
    else s
  }

  /** Brick check: every standing brick the ball overlaps is destroyed; each
      such hit negates the vertical speed and adds one to the score and to
      the destroyed-brick count. */
  function BrickCollision(s: State): State {
    var hits := HitCount(s.ballX, s.ballY, s.bricks);
    s.(bricks := StrikeAll(s.ballX, s.ballY, s.bricks),
       ySpeed := Flip(s.ySpeed, hits),
       score := s.score + hits,
       numberOfDestroyedBricks := s.numberOfDestroyedBricks + hits)
  }

  /** The ball's bottom is below the paddle's top and its square overlaps the
      paddle horizontally.  The paddle's bottom edge is not tested. */
  predicate BallOverPaddle(x: int, y: int, paddleX: int, paddleY: int) {
    && y + BallRadius > paddleY
    && x + BallRadius > paddleX
    && x - BallRadius < paddleX + PaddleWidth
  }

  /** Paddle check: a purely vertical reflection. */
  function PaddleCollision(s: State): State {
    if BallOverPaddle(s.ballX, s.ballY, s.paddleX, s.paddleY) then s.(ySpeed := -s.ySpeed) else s
  }

  predicate LeftBorderHit(x: int) { x - BallRadius < 0 }
  predicate RightBorderHit(x: int) { x + BallRadius > Width }
  predicate TopBorderHit(y: int) { y - BallRadius < 0 }
  predicate BottomBorderHit(y: int) { y + BallRadius > Height }

  /** Which border, if any, the border check acts on: the first of left,
      right, top and bottom that the ball crosses. */
  datatype Border = LeftWall | RightWall | Ceiling | Floor | NoBorder

  function BorderContact(x: int, y: int): Border {
    if LeftBorderHit(x) then LeftWall
    else if RightBorderHit(x) then RightWall
    else if TopBorderHit(y) then Ceiling
    else if BottomBorderHit(y) then Floor
    else NoBorder
  }

  /** Border check: the side walls negate the horizontal speed, the ceiling
      the vertical speed; the floor costs a life and marks the life as crashed
      only while at least one life is left. */
  function BorderCollision(s: State): State {
    match BorderContact(s.ballX, s.ballY)
    case LeftWall => s.(xSpeed := -s.xSpeed)
    case RightWall => s.(xSpeed := -s.xSpeed)
    case Ceiling => s.(ySpeed := -s.ySpeed)
    case Floor =>
      var lives := s.lives - 1;
      s.(lives := lives, isLifeCrashed := !(lives < 1))
    case NoBorder => s
  }

  /** The three collision checks, in their fixed order. */
  function Collide(s: State): State {
    BorderCollision(PaddleCollision(BrickCollision(s)))
  }

  /** One tick: move the ball, evaluate the stage, then run the collision
      checks. */
  function Tick(s: State): State {
    Collide(UpdateStage(MoveBall(s)))
  }

  // ------------------------------------------------------ frame decision

  /** What a frame does after its tick: show one of the four messages and
      stop, or ask for the next frame. */
  datatype Frame = ShowGameOver | ShowCrashedLife | ShowGameComplete | ShowGameStop | RequestNextFrame

  function FrameOutcome(s: State): (f: Frame)
    ensures f == ShowGameOver <==> s.isGameOver
    ensures f == ShowCrashedLife <==> !s.isGameOver && s.isLifeCrashed
    ensures f == ShowGameComplete <==> !s.isGameOver && !s.isLifeCrashed && s.isGameComplete
    ensures f == ShowGameStop
        <==> !s.isGameOver && !s.isLifeCrashed && !s.isGameComplete && s.isGameStopped
    ensures f == RequestNextFrame <==> !s.isGameOver && !s.isLifeCrashed && !s.isGameComplete && !s.isGameStopped
  {
    if s.isGameOver then ShowGameOver
    else if s.isLifeCrashed then ShowCrashedLife
    else if s.isGameComplete then ShowGameComplete
    else if s.isGameStopped then ShowGameStop
    else RequestNextFrame
  }

  /** At most `frames` frames of the self-scheduling render loop: each frame
      runs one tick, then the loop continues from the ticked state. */
  function Run(s: State, frames: nat): State
    decreases frames, 0
  {
    if frames == 0 then s else Continue(Tick(s), frames - 1)
  }

  /** After a frame's tick: the next frame is scheduled only when the frame's
      decision says so. */
  function Continue(t: State, frames: nat): State
    decreases frames, 1
  {
    if FrameOutcome(t) == RequestNextFrame then Run(t, frames) else t
  }

  // -------------------------------------------------------- input handlers

  /** None of complete, over or crashed holds: the pause key is live. */
  predicate Playable(s: State) {
    !s.isGameComplete && !s.isGameOver && !s.isLifeCrashed
  }

  /** The pause key's effect on the flags (the frame it starts when it
      unpauses is not part of this function). */
  function StopContinue(s: State, isSpace: bool): State {
    if isSpace && s.isGameStopped && Playable(s) then s.(isGameStopped := false)
    else if isSpace && !s.isGameStopped && Playable(s) then s.(isGameStopped := true)
    else s
  }

  /** The pause key unpauses the game and so starts a frame. */
  predicate StopContinueRenders(s: State, isSpace: bool) {
    isSpace && s.isGameStopped && Playable(s)
  }

  /** Continuing after a lost life: paddle and ball reset, crash cleared
      (the frame it then starts is not part of this function). */
  function ResumeAfterCrash(s: State): State {
    ResetBall(ResetPaddle(s)).(isLifeCrashed := false)
  }

  /** The arrow keys the paddle listens to; every other key is ignored. */
  datatype KeyPress = RightKey | LeftKey | OtherKey

  predicate PaddleAtLeftBorder(x: int) { x <= 0 }
  predicate PaddleAtRightBorder(x: int) { x + PaddleWidth >= Width }

  /** A key press moves the paddle by its speed unless it already touches the
      border it moves towards.  The move is not clamped. */
  function KeyMove(s: State, key: KeyPress): State {
    match key
    case RightKey =>
      if !PaddleAtRightBorder(s.paddleX) then s.(paddleX := s.paddleX + s.paddleXSpeed) else s
    case LeftKey =>
      if !PaddleAtLeftBorder(s.paddleX) then s.(paddleX := s.paddleX - s.paddleXSpeed) else s
    case OtherKey => s
  }

  /** A mouse move puts the paddle at the pointer's x, then pulls it back to a
      border it touches or crosses. */
  function MouseMove(s: State, mouseX: int): (r: State)
    ensures 0 <= r.paddleX <= Width - PaddleWidth
    ensures r == s.(paddleX := r.paddleX)
  {
    var x1 := if !PaddleAtLeftBorder(s.paddleX) then mouseX
              else if !PaddleAtRightBorder(s.paddleX) then mouseX
              else s.paddleX;
    var x2 := if PaddleAtLeftBorder(x1) then 0
              else if PaddleAtRightBorder(x1) then Width - PaddleWidth
              else x1;
    s.(paddleX := x2)
  }

  /** `v` limited to [lo, hi]. */
  function Clamp(v: int, lo: int, hi: int): (r: int)
    requires lo <= hi
    ensures lo <= r <= hi
    ensures lo <= v <= hi ==> r == v
    ensures v < lo ==> r == lo
    ensures v > hi ==> r == hi
  {
    if v <= lo then lo else if v >= hi then hi else v
  }

  // ------------------------------------------------------------ invariant

  /** The grid is the laid-out one: only destroyed flags ever change. */
  predicate GridIntact(bs: seq<Brick>) {
    |bs| == |Layout()| && forall i :: 0 <= i < |bs| ==> bs[i].(isDestroyed := false) == Layout()[i]
  }

  /** Score and destroyed count agree with the bricks' destroyed flags. */
  predicate TallyAgrees(s: State) {
    s.numberOfDestroyedBricks == DestroyedCount(s.bricks) && s.score == s.numberOfDestroyedBricks
  }

  /** The ball only ever moves diagonally at the launch speed. */
  predicate SpeedsAtVelocity(s: State) {
    (s.xSpeed == BallVelocity || s.xSpeed == -BallVelocity)
    && (s.ySpeed == BallVelocity || s.ySpeed == -BallVelocity)
  }

  /** The paddle stays on the floor and never gets more than one key step
      outside the arena. */
  predicate PaddleInPlace(s: State) {
    && s.paddleY == Height - PaddleHeight && s.paddleXSpeed == PaddleVelocity
    && -PaddleVelocity < s.paddleX < Width - PaddleWidth + PaddleVelocity
  }

  /** Lives and the phase flags agree. */
  predicate PhaseAgrees(s: State) {
    && s.lives <= InitialLives
    && (s.isGameOver ==> s.lives < 1)
    && (s.lives < 0 ==> s.isGameOver)
    && (s.isLifeCrashed ==> s.lives >= 1)
    && (s.isGameComplete ==> s.numberOfDestroyedBricks == |s.bricks|)
  }

  /** What every state the game reaches satisfies. */
  predicate Valid(s: State) {
    GridIntact(s.bricks) && TallyAgrees(s) && SpeedsAtVelocity(s) && PaddleInPlace(s) && PhaseAgrees(s)
  }

  lemma InitialValid()
    ensures Valid(Initial())
    ensures Initial().ballX == 640 && Initial().ballY == 670
    ensures Initial().paddleX == 580 && |Initial().bricks| == 45
  {
    LayoutUntouched();
    DefaultLayout();
  }

  // ------------------------------------------------- properties of a tick

  /** The brick check as a whole: the ball stays put, the horizontal speed is
      untouched, the vertical speed flips exactly when an odd number of
      standing bricks is hit, and score and destroyed count rise by the
      number of hits. */
  lemma BrickCollisionEffect(s: State)
    ensures var r := BrickCollision(s);
      var hits := HitCount(s.ballX, s.ballY, s.bricks);
      && r.ballX == s.ballX && r.ballY == s.ballY && r.xSpeed == s.xSpeed
      && (r.ySpeed == -s.ySpeed <==> hits % 2 == 1 || s.ySpeed == 0)
      && (hits % 2 == 0 ==> r.ySpeed == s.ySpeed)
      && r.score == s.score + hits
      && r.numberOfDestroyedBricks == s.numberOfDestroyedBricks + hits
      && |r.bricks| == |s.bricks|
      && r.(bricks := s.bricks, ySpeed := s.ySpeed, score := s.score,
            numberOfDestroyedBricks := s.numberOfDestroyedBricks) == s
  {
  }

  /** The brick check keeps score, destroyed count and the bricks' destroyed
      flags in agreement. */
  lemma BrickCollisionKeepsTally(s: State)
    requires s.score == s.numberOfDestroyedBricks == DestroyedCount(s.bricks)
    ensures var r := BrickCollision(s);
      r.score == r.numberOfDestroyedBricks == DestroyedCount(r.bricks)
  {
    StrikeAllTally(s.ballX, s.ballY, s.bricks);
  }

  /** The paddle check negates the vertical speed exactly when the ball is
      over the paddle, and changes nothing else. */
  lemma PaddleCollisionEffect(s: State)
    ensures var r := PaddleCollision(s);
      && r.ySpeed == (if BallOverPaddle(s.ballX, s.ballY, s.paddleX, s.paddleY) then -s.ySpeed else s.ySpeed)
      && r.(ySpeed := s.ySpeed) == s
  {
  }

  /** The border check applies at most one effect: a side wall changes only
      the horizontal speed, the ceiling only the vertical speed, the floor only
      lives and the crash flag (never the ball's speed); they are tried in the
      order left, right, top, bottom. */
  lemma BorderCollisionEffect(s: State)
    ensures var r := BorderCollision(s);
      var c := BorderContact(s.ballX, s.ballY);
      && (c == LeftWall <==> LeftBorderHit(s.ballX))
      && (c == RightWall <==> !LeftBorderHit(s.ballX) && RightBorderHit(s.ballX))
      && (c == Ceiling <==> !LeftBorderHit(s.ballX) && !RightBorderHit(s.ballX) && TopBorderHit(s.ballY))
      && (c == Floor <==> !LeftBorderHit(s.ballX) && !RightBorderHit(s.ballX)
                          && !TopBorderHit(s.ballY) && BottomBorderHit(s.ballY))
      && (c == LeftWall || c == RightWall ==> r == s.(xSpeed := -s.xSpeed))
      && (c == Ceiling ==> r == s.(ySpeed := -s.ySpeed))
      && (c == Floor ==> r == s.(lives := s.lives - 1, isLifeCrashed := s.lives - 1 >= 1))
      && (c == NoBorder ==> r == s)
  {
  }

  /** The ball moves by exactly its speed in every tick: no collision check
      moves it. */
  lemma TickMovesBall(s: State)
    ensures Tick(s).ballX == s.ballX + s.xSpeed
    ensures Tick(s).ballY == s.ballY + s.ySpeed
  {
    CollideKeeps(UpdateStage(MoveBall(s)));
  }

  /** No collision check moves the ball or touches the game-over, complete
      and pause flags. */
  lemma CollideKeeps(s: State)
    ensures Collide(s).ballX == s.ballX && Collide(s).ballY == s.ballY
    ensures Collide(s).isGameOver == s.isGameOver
    ensures Collide(s).isGameComplete == s.isGameComplete
    ensures Collide(s).isGameStopped == s.isGameStopped
  {
    var p := PaddleCollision(BrickCollision(s));
    assert p.ballX == s.ballX && p.ballY == s.ballY;
    assert p.isGameOver == s.isGameOver && p.isGameComplete == s.isGameComplete;
    assert p.isGameStopped == s.isGameStopped;
  }

  /** The first tick of a session, far from every brick and border, takes the
      ball from (640, 670) to (644, 666). */
  lemma FirstTick()
    ensures Tick(Initial()).ballX == 644 && Tick(Initial()).ballY == 666
  {
    TickMovesBall(Initial());
  }

  /** The stage is evaluated on the counters the tick starts with (after the
      move, before its collisions), and a tick never clears either flag. */
  lemma TickStageFlags(s: State)
    ensures Tick(s).isGameOver == (s.isGameOver || s.lives < 1)
    ensures Tick(s).isGameComplete
         == (s.isGameComplete || (s.lives >= 1 && s.numberOfDestroyedBricks == |s.bricks|))
    ensures Tick(s).isGameStopped == s.isGameStopped
  {
    CollideKeeps(UpdateStage(MoveBall(s)));
  }

  /** A tick that destroys the last brick does not complete the game; the
      next tick does, unless that tick found no life left. */
  lemma {:induction false} CompleteRaisedOneTickLate(s: State)
    requires Valid(s)
    requires s.numberOfDestroyedBricks < |s.bricks|
    requires Tick(s).numberOfDestroyedBricks == |Tick(s).bricks|
    ensures !Tick(s).isGameComplete
    ensures Tick(s).lives >= 1 ==> Tick(Tick(s)).isGameComplete
  {
    TickStageFlags(s);
    TickStageFlags(Tick(s));
  }

  /** Losing the last life: lives drop to 0 but the crash flag is cleared and
      the game is not yet over, so the frame asks for another tick (unless
      the game is complete or paused); that tick raises game over. */
  lemma LastLifeLost(s: State)
    requires s.lives == 1 && !s.isGameOver
    requires BorderContact(s.ballX + s.xSpeed, s.ballY + s.ySpeed) == Floor
    ensures Tick(s).lives == 0
    ensures !Tick(s).isLifeCrashed && !Tick(s).isGameOver
    ensures !Tick(s).isGameComplete && !Tick(s).isGameStopped ==> FrameOutcome(Tick(s)) == RequestNextFrame
    ensures Tick(Tick(s)).isGameOver
  {
    TickStageFlags(s);
    TickStageFlags(Tick(s));
    var m := UpdateStage(MoveBall(s));
    assert BrickCollision(m).ballX == m.ballX && BrickCollision(m).ballY == m.ballY;
  }

  /** Losing a life with lives to spare: one life fewer, the crash flag is
      raised, and the frame stops to show it (unless the game is over). */
  lemma LifeLost(s: State)
    requires s.lives >= 2 && !s.isGameOver
    requires BorderContact(s.ballX + s.xSpeed, s.ballY + s.ySpeed) == Floor
    ensures Tick(s).lives == s.lives - 1
    ensures Tick(s).isLifeCrashed
    ensures FrameOutcome(Tick(s)) == ShowCrashedLife
  {
    TickStageFlags(s);
    var m := UpdateStage(MoveBall(s));
    assert BrickCollision(m).ballX == m.ballX && BrickCollision(m).ballY == m.ballY;
  }

  /** What a tick can and cannot undo: lives fall by at most one, the destroyed
      count never falls, no brick is rebuilt or moved, game over and complete
      are never cleared, and the pause flag is not touched. */
  lemma TickMonotone(s: State)
    ensures s.lives - 1 <= Tick(s).lives <= s.lives
    ensures Tick(s).numberOfDestroyedBricks >= s.numberOfDestroyedBricks
    ensures |Tick(s).bricks| == |s.bricks|
    ensures forall i :: 0 <= i < |s.bricks| && s.bricks[i].isDestroyed ==> Tick(s).bricks[i].isDestroyed
    ensures forall i :: 0 <= i < |s.bricks| ==>
              Tick(s).bricks[i].(isDestroyed := false) == s.bricks[i].(isDestroyed := false)
    ensures s.isGameOver ==> Tick(s).isGameOver
    ensures s.isGameComplete ==> Tick(s).isGameComplete
    ensures Tick(s).isGameStopped == s.isGameStopped
  {
    TickPhaseMonotone(s);
    TickBricksMonotone(s);
  }

  lemma TickPhaseMonotone(s: State)
    ensures s.lives - 1 <= Tick(s).lives <= s.lives
    ensures s.isGameOver ==> Tick(s).isGameOver
    ensures s.isGameComplete ==> Tick(s).isGameComplete
    ensures Tick(s).isGameStopped == s.isGameStopped
  {
    var u := UpdateStage(MoveBall(s));
    var b := BrickCollision(u);
    assert b.lives == u.lives && b.isGameOver == u.isGameOver;
    assert b.isGameComplete == u.isGameComplete && b.isGameStopped == u.isGameStopped;
    var p := PaddleCollision(b);
    assert p.lives == b.lives && p.isGameOver == b.isGameOver;
    assert p.isGameComplete == b.isGameComplete && p.isGameStopped == b.isGameStopped;
    BorderCollisionPhase(p);
  }

  /** The border check costs at most one life and touches no phase flag but
      the crash flag. */
  lemma BorderCollisionPhase(s: State)
    ensures var r := BorderCollision(s);
      && s.lives - 1 <= r.lives <= s.lives
      && r.isGameOver == s.isGameOver && r.isGameComplete == s.isGameComplete
      && r.isGameStopped == s.isGameStopped
  {
  }

  lemma TickBricksMonotone(s: State)
    ensures Tick(s).numberOfDestroyedBricks >= s.numberOfDestroyedBricks
    ensures |Tick(s).bricks| == |s.bricks|
    ensures forall i :: 0 <= i < |s.bricks| && s.bricks[i].isDestroyed ==> Tick(s).bricks[i].isDestroyed
    ensures forall i :: 0 <= i < |s.bricks| ==>
              Tick(s).bricks[i].(isDestroyed := false) == s.bricks[i].(isDestroyed := false)
  {
    var u := UpdateStage(MoveBall(s));
    assert u.bricks == s.bricks && u.numberOfDestroyedBricks == s.numberOfDestroyedBricks;
    var b := BrickCollision(u);
    CollideKeepsBricks(u);
    forall i | 0 <= i < |s.bricks|
      ensures b.bricks[i].(isDestroyed := false) == s.bricks[i].(isDestroyed := false)
      ensures s.bricks[i].isDestroyed ==> b.bricks[i].isDestroyed
    {
      StrikeAllAt(u.ballX, u.ballY, u.bricks, i);
    }
  }

  /** After the brick check, the paddle and border checks leave the bricks
      and the destroyed count alone. */
  lemma CollideKeepsBricks(s: State)
    ensures Collide(s).bricks == BrickCollision(s).bricks
    ensures Collide(s).numberOfDestroyedBricks == BrickCollision(s).numberOfDestroyedBricks
  {
    var b := BrickCollision(s);
    var p := PaddleCollision(b);
    assert p.bricks == b.bricks && p.numberOfDestroyedBricks == b.numberOfDestroyedBricks;
  }

  lemma BrickCollisionValid(s: State)
    requires Valid(s)
    ensures Valid(BrickCollision(s))
  {
    var r := BrickCollision(s);
    BrickCollisionKeepsTally(s);
    DestroyedCountBound(r.bricks);
    forall i | 0 <= i < |r.bricks| ensures r.bricks[i].(isDestroyed := false) == Layout()[i] {
      StrikeAllAt(s.ballX, s.ballY, s.bricks, i);
    }
    assert PhaseAgrees(r);
  }

  /** The border check keeps the invariant once the stage has seen a lost
      game (it can take lives below zero only after game over is raised). */
  lemma BorderCollisionValid(s: State)
    requires Valid(s) && (s.lives < 1 ==> s.isGameOver)
    ensures Valid(BorderCollision(s))
  {
    if BorderContact(s.ballX, s.ballY) == Floor {
      FloorValid(s);
    } else {
      BounceValid(s);
    }
  }

  lemma FloorValid(s: State)
    requires Valid(s) && (s.lives < 1 ==> s.isGameOver)
    requires BorderContact(s.ballX, s.ballY) == Floor
    ensures Valid(BorderCollision(s))
  {
  }

  lemma BounceValid(s: State)
    requires Valid(s)
    requires BorderContact(s.ballX, s.ballY) != Floor
    ensures Valid(BorderCollision(s))
  {
  }

  /** Moving the ball and evaluating the stage keep the invariant, and after
      the stage a state with no life left is over. */
  lemma StageValid(s: State)
    requires Valid(s)
    ensures Valid(UpdateStage(MoveBall(s)))
    ensures UpdateStage(MoveBall(s)).lives < 1 ==> UpdateStage(MoveBall(s)).isGameOver
  {
    var m := MoveBall(s);
    assert m.bricks == s.bricks && Valid(m);
    assert UpdateStage(m).bricks == s.bricks;
  }

  lemma PaddleCollisionValid(s: State)
    requires Valid(s)
    ensures Valid(PaddleCollision(s))
  {
    assert PaddleCollision(s).bricks == s.bricks;
  }

  /** Every tick keeps the invariant. */
  lemma TickPreservesValid(s: State)
    requires Valid(s)
    ensures Valid(Tick(s))
  {
    var u := UpdateStage(MoveBall(s));
    StageValid(s);
    BrickCollisionValid(u);
    var b := BrickCollision(u);
    assert b.lives == u.lives && b.isGameOver == u.isGameOver;
    PaddleCollisionValid(b);
    var p := PaddleCollision(b);
    assert p.lives == b.lives && p.isGameOver == b.isGameOver;
    BorderCollisionValid(p);
  }

  /** While the loop is scheduled (game not over), a tick leaves at least
      -1 lives: lives can fall below zero by one, and no further. */
  lemma ScheduledTickLives(s: State)
    requires Valid(s) && !s.isGameOver
    ensures Tick(s).lives >= -1
  {
    TickPhaseMonotone(s);
  }

  /** The render loop, started on a valid state that is not over, keeps the
      invariant and never takes lives below -1. */
  lemma {:induction false} RunKeepsValid(s: State, frames: nat)
    requires Valid(s) && !s.isGameOver
    ensures Valid(Run(s, frames))
    ensures Run(s, frames).lives >= -1
    decreases frames, 0
  {
    if frames > 0 {
      TickPreservesValid(s);
      ScheduledTickLives(s);
      ContinueKeepsValid(Tick(s), frames - 1);
    }
  }

  lemma {:induction false} ContinueKeepsValid(t: State, frames: nat)
    requires Valid(t) && t.lives >= -1
    ensures Valid(Continue(t, frames))
    ensures Continue(t, frames).lives >= -1
    decreases frames, 1
  {
    if FrameOutcome(t) == RequestNextFrame {
      RunKeepsValid(t, frames);
    }
  }

  /** Once a frame shows game over, every later tick shows it again: the
      render decision for game over is absorbing. */
  lemma GameOverAbsorbs(s: State)
    requires s.isGameOver
    ensures FrameOutcome(Tick(s)) == ShowGameOver
  {
    TickMonotone(s);
  }

  // --------------------------------------------- properties of the inputs

  /** The pause key toggles the pause flag exactly when it is Space and none
      of complete, over or crashed holds; nothing else changes. */
  lemma StopContinueToggles(s: State, isSpace: bool)
    ensures StopContinue(s, isSpace).isGameStopped
         == (if isSpace && Playable(s) then !s.isGameStopped else s.isGameStopped)
    ensures StopContinue(s, isSpace).(isGameStopped := s.isGameStopped) == s
    ensures StopContinueRenders(s, isSpace) ==> !StopContinue(s, isSpace).isGameStopped
  {
  }

  /** Continuing after a crash resets ball and paddle and clears the crash
      flag; bricks, score, lives and the other flags stay. */
  lemma ResumeAfterCrashEffect(s: State)
    ensures var r := ResumeAfterCrash(s);
      && r.ballX == 640 && r.ballY == 670 && r.xSpeed == 4 && r.ySpeed == -4
      && r.paddleX == 580 && r.paddleY == 710 && r.paddleXSpeed == 30
      && !r.isLifeCrashed
      && r.bricks == s.bricks && r.score == s.score && r.lives == s.lives
      && r.numberOfDestroyedBricks == s.numberOfDestroyedBricks
      && r.isGameOver == s.isGameOver && r.isGameComplete == s.isGameComplete
      && r.isGameStopped == s.isGameStopped
  {
  }

  /** After a mouse move the paddle is at the pointer, clamped to the arena. */
  lemma MouseMoveClamps(s: State, mouseX: int)
    ensures MouseMove(s, mouseX).paddleX == Clamp(mouseX, 0, Width - PaddleWidth)
  {
  }

  /** A key press moves the paddle by exactly its speed towards the arrow's
      side when it does not already touch that border, and otherwise leaves
      it; nothing but the paddle's x changes. */
  lemma KeyMoveEffect(s: State, key: KeyPress)
    ensures var r := KeyMove(s, key);
      && r == s.(paddleX := r.paddleX)
      && (key == RightKey ==> r.paddleX == (if s.paddleX + PaddleWidth < Width then s.paddleX + s.paddleXSpeed else s.paddleX))
      && (key == LeftKey ==> r.paddleX == (if s.paddleX > 0 then s.paddleX - s.paddleXSpeed else s.paddleX))
      && (key == OtherKey ==> r == s)
  {
  }

  /** Key moves are not clamped: from x = 1150 a right arrow puts the paddle's
      right edge 20 pixels past the arena. */
  lemma KeyMoveOvershoots(s: State)
    requires s.paddleX == 1150 && s.paddleXSpeed == PaddleVelocity
    ensures KeyMove(s, RightKey).paddleX + PaddleWidth == Width + 20
  {
  }

  lemma StopContinueValid(s: State, isSpace: bool)
    requires Valid(s)
    ensures Valid(StopContinue(s, isSpace))
  {
    assert StopContinue(s, isSpace).bricks == s.bricks;
  }

  lemma KeyMoveValid(s: State, key: KeyPress)
    requires Valid(s)
    ensures Valid(KeyMove(s, key))
  {
    assert KeyMove(s, key).bricks == s.bricks;
  }

  lemma MouseMoveValid(s: State, mouseX: int)
    requires Valid(s)
    ensures Valid(MouseMove(s, mouseX))
  {
    assert MouseMove(s, mouseX).bricks == s.bricks;
  }

  lemma ResumeAfterCrashValid(s: State)
    requires Valid(s)
    ensures Valid(ResumeAfterCrash(s))
  {
    assert ResumeAfterCrash(s).bricks == s.bricks;
  }
}
