/**
 * The running game: the catcher object and the game's file-scope state,
 * updated in place one frame at a time. Every method is proved to change
 * the state exactly as the corresponding rule in module Rules says, and to
 * keep Rules.Inv.
 */
module Game {
  import opened Modes
  import Rules

  /** The player's catcher: `x` is where it is drawn and collides, `targetX` where the pointer is. */
  class Catcher {
    var x: real
    var targetX: real
    const y: real
    const w: real
    const h: real

    constructor (x0: real, y: real, w: real, h: real)
      ensures x == x0 && targetX == x0 && this.y == y && this.w == w && this.h == h
    {
      x, targetX := x0, x0;
      this.y, this.w, this.h := y, w, h;
    }
  }

  class Game {
    const width: real
    const height: real
    const ballW: real
    const ballH: real
    const catcher: Catcher

    var currentMode: string
    var cfg: Config
    var score: int
    var lives: int
    var gameOver: bool
    var playing: bool
    var balls: seq<Rules.Ball>
    var spawnTimer: real
    var gameOverTimer: real

    /** The fixed sizes of this game. */
    function Geo(): Rules.Geometry
    {
      Rules.Geometry(width, height, ballW, ballH, catcher.y, catcher.w, catcher.h)
    }

    /** The game's state as one value. */
    ghost function Snapshot(): Rules.Session
      reads this, catcher
    {
      Rules.Session(currentMode, cfg, score, lives, gameOver, playing, balls,
                    spawnTimer, gameOverTimer, catcher.x, catcher.targetX)
    }

    ghost predicate Valid()
      reads this, catcher
    {
      Rules.Inv(Snapshot(), Geo())
    }

    /**
     * The page has loaded: canvas `width` x `height`, ball sprite `ballW` x
     * `ballH`, catcher box `catcherW` x `catcherH` (sizes the images give).
     */
    constructor (width: real, height: real, ballW: real, ballH: real, catcherW: real, catcherH: real)
      ensures Geo() == Rules.Geometry(width, height, ballW, ballH, height - Rules.CatcherLift, catcherW, catcherH)
      ensures Snapshot() == Rules.Initial(Geo())
      ensures Valid()
    {
      this.width, this.height, this.ballW, this.ballH := width, height, ballW, ballH;
      catcher := new Catcher(width / 2.0, height - Rules.CatcherLift, catcherW, catcherH);
      currentMode := DefaultMode;
      cfg := Table[DefaultMode];
      score := 0;
      lives := Table[DefaultMode].lives;
      gameOver, playing := false, false;
      balls := [];
      spawnTimer, gameOverTimer := 0.0, 0.0;
      new;
      Rules.InitialInv(Geo());
    }

    /** A mode button: an unknown key changes nothing. */
    method SetMode(m: string)
      requires Valid()
      modifies this
      ensures Snapshot() == Rules.SelectMode(old(Snapshot()), m)
      ensures Valid()
    {
      var c := Lookup(m);
      if c.None? {
        return;
      }
      currentMode := m;
      cfg := c.value;
      Rules.SelectModeFacts(old(Snapshot()), Geo(), m);
    }

    /** The restart button, and the end of the game-over dwell. */
    method GoToMainScreen()
      modifies this
      ensures Snapshot() == Rules.ToMenu(old(Snapshot()))
      ensures old(currentMode in Table && cfg == Table[currentMode]) ==> Valid()
    {
      playing := false;
      gameOver := false;
      balls := [];
      score := 0;
      lives := cfg.lives;
      if currentMode in Table && cfg == Table[currentMode] {
        Rules.ToMenuFacts(old(Snapshot()), Geo());
      }
    }

    /** The play button. */
    method StartGame()
      requires Valid()
      modifies this, catcher
      ensures Snapshot() == Rules.Start(old(Snapshot()), Geo())
      ensures Valid()
    {
      score := 0;
      lives := cfg.lives;
      balls := [];
      gameOver := false;
      playing := true;
      spawnTimer := 0.0;
      catcher.x := width / 2.0;
      catcher.targetX := width / 2.0;
      Rules.StartFacts(old(Snapshot()), Geo());
    }

    /** The pointer moved to canvas position `px`. */
    method PointerMove(px: real)
      requires Valid()
      modifies catcher
      ensures Snapshot() == Rules.Point(old(Snapshot()), px)
      ensures Valid()
    {
      catcher.targetX := px;
      catcher.x := catcher.targetX;
    }

    /**
     * The per-frame update: snap and clamp the catcher, maybe spawn one ball
     * (`rnd` is the random draw), then sweep the balls.
     */
    method Update(dt: real, rnd: real)
      requires Valid() && playing && !gameOver
      modifies this, catcher
      ensures Snapshot() == Rules.Update(old(Snapshot()), Geo(), dt, rnd)
      ensures Valid()
    {
      catcher.x := catcher.targetX;
      catcher.x := Rules.Max(catcher.w / 2.0, Rules.Min(width - catcher.w / 2.0, catcher.x));

      spawnTimer := spawnTimer + dt;
      if spawnTimer > cfg.spawn {
        spawnTimer := 0.0;
        balls := balls + [Rules.Spawned(Geo(), cfg.speed, rnd)];
      }
      assert Snapshot() == Rules.Spawn(Rules.Aim(old(Snapshot()), Geo()), Geo(), dt, rnd);

      SweepBalls(dt);
      Rules.UpdateKeepsInv(old(Snapshot()), Geo(), dt, rnd);
    }

    /**
     * The sweep of the update: walk the balls from the last to the first,
     * move each one, and remove it in place when it is caught (score +10)
     * or falls below the canvas (one life lost; the game is over once no
     * lives are left).
     */
    method SweepBalls(dt: real)
      modifies this
      ensures balls == Rules.Survivors(old(balls), catcher.x, Geo(), dt)
      ensures score == old(score) + Rules.Reward * Rules.Count(old(balls), catcher.x, Geo(), dt, Rules.Caught)
      ensures lives == old(lives) - Rules.Count(old(balls), catcher.x, Geo(), dt, Rules.Missed)
      ensures gameOver == (old(gameOver) || (lives < old(lives) && lives <= 0))
      ensures gameOverTimer == if lives < old(lives) && lives <= 0 then 0.0 else old(gameOverTimer)
      ensures currentMode == old(currentMode) && cfg == old(cfg) && playing == old(playing)
      ensures spawnTimer == old(spawnTimer)
    {
      ghost var pre := balls;
      var i := |balls| - 1;
      assert pre[i + 1..] == [] && pre[..i + 1] == balls;
      while i >= 0
        invariant -1 <= i < |pre|
        invariant Swept(pre, i + 1, dt, old(score), old(lives), old(gameOver), old(gameOverTimer))
        invariant currentMode == old(currentMode) && cfg == old(cfg) && playing == old(playing)
        invariant spawnTimer == old(spawnTimer)
      {
        SweepAt(pre, i, dt, old(score), old(lives), old(gameOver), old(gameOverTimer));
        i := i - 1;
      }
      assert pre[0..] == pre;
    }

    /**
     * The state after the sweep has handled the balls at positions `j` and
     * after: the balls before `j` are untouched, and the handled ones count
     * toward score, lives and game over.
     */
    ghost predicate Swept(pre: seq<Rules.Ball>, j: nat, dt: real,
                          score0: int, lives0: int, over0: bool, timer0: real)
      reads this, catcher
      requires j <= |pre|
    {
      var missed := Rules.Count(pre[j..], catcher.x, Geo(), dt, Rules.Missed);
      balls == pre[..j] + Rules.Survivors(pre[j..], catcher.x, Geo(), dt) &&
      score == score0 + Rules.Reward * Rules.Count(pre[j..], catcher.x, Geo(), dt, Rules.Caught) &&
      lives == lives0 - missed &&
      gameOver == (over0 || (missed > 0 && lives <= 0)) &&
      gameOverTimer == (if missed > 0 && lives <= 0 then 0.0 else timer0)
    }

    /**
     * The body of the sweep for the ball at position `i`: move it, then
     * remove it in place if it is caught (+10) or has fallen below the
     * canvas (one life less, and game over once none are left).
     */
    method SweepAt(ghost pre: seq<Rules.Ball>, i: nat, dt: real,
                   ghost score0: int, ghost lives0: int, ghost over0: bool, ghost timer0: real)
      requires i < |pre| && Swept(pre, i + 1, dt, score0, lives0, over0, timer0)
      modifies this
      ensures Swept(pre, i, dt, score0, lives0, over0, timer0)
      ensures currentMode == old(currentMode) && cfg == old(cfg) && playing == old(playing)
      ensures spawnTimer == old(spawnTimer)
    {
      Rules.SpliceAt(pre, balls, i, catcher.x, Geo(), dt);
      Rules.CountAt(pre, i, catcher.x, Geo(), dt);
      var b := Rules.Fallen(balls[i], dt);
      balls := balls[i := b];
      if Rules.InCatchZone(b, catcher.x, Geo()) {
        balls := balls[..i] + balls[i + 1..];
        score := score + Rules.Reward;
      } else if b.y > height {
        balls := balls[..i] + balls[i + 1..];
        lives := lives - 1;
        if lives <= 0 {
          gameOver := true;
          gameOverTimer := 0.0;
        }
      }
    }

    /**
     * One animation frame of length `dt`: update while a round runs, then,
     * on the game-over screen, advance the dwell timer and return to the
     * menu once it reaches 1.2 seconds.
     */
    method Tick(dt: real, rnd: real)
      requires Valid()
      modifies this, catcher
      ensures Snapshot() == Rules.Frame(old(Snapshot()), Geo(), dt, rnd)
      ensures Valid()
    {
      if playing && !gameOver {
        Update(dt, rnd);
      }
      if gameOver {
        gameOverTimer := gameOverTimer + dt;
        if gameOverTimer >= Rules.Dwell {
          GoToMainScreen();
        }
      }
      Rules.FramePhases(old(Snapshot()), Geo(), dt, rnd);
    }
  }
}
