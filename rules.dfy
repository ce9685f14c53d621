/**
 * The rules of the catch game as functions on one record of state: what a
 * frame, a mode change, starting a round and returning to the menu do to the
 * session. The class in module Game runs these rules imperatively and is
 * proved to agree with them.
 */
module Rules {
  import opened Modes

  /** A falling ball: centre `x`, `y`, vertical speed `vy` and sprite size. */
  datatype Ball = Ball(x: real, y: real, vy: real, w: real, h: real)

  /**
   * Sizes that the game treats as fixed: the canvas (`width`, `height`),
   * the ball sprite, and the catcher's box (its `y` is the bottom of the
   * catch band, `catcherH` the band's height).
   */
  datatype Geometry = Geometry(
    width: real, height: real,
    ballW: real, ballH: real,
    catcherY: real, catcherW: real, catcherH: real)

  /** Everything a frame, a button or the pointer can change. */
  datatype Session = Session(
    mode: string, cfg: Config,
    score: int, lives: int,
    gameOver: bool, playing: bool,
    balls: seq<Ball>,
    spawnTimer: real, gameOverTimer: real,
    catcherX: real, targetX: real)

  /** The three screens of the game. */
  datatype Phase = Menu | Playing | Over

  /** What a frame's sweep decides for one ball. */
  datatype Fate = Caught | Missed | Falling

  /** Points for one caught ball. */
  const Reward: int := 10

  /** Seconds the game-over screen stays before the menu returns. */
  const Dwell: real := 1.2

  /** Distance from the canvas bottom to the catcher's `y`. */
  const CatcherLift: real := 80.0

  function PhaseOf(s: Session): Phase
  {
    if !s.playing then Menu else if s.gameOver then Over else Playing
  }

  // ---------------------------------------------------------------- catcher

  function Max(a: real, b: real): real { if a >= b then a else b }

  function Min(a: real, b: real): real { if a <= b then a else b }

  /** `v` bounded below by `lo` and above by `hi`; `lo` wins when the bounds cross. */
  function Clamp(lo: real, hi: real, v: real): (r: real)
    ensures lo <= r
    ensures lo <= hi ==> r <= hi
    ensures lo <= v <= hi ==> r == v
    ensures v < lo ==> r == lo
    ensures lo <= hi && hi < v ==> r == hi
    ensures hi < lo ==> r == lo
  {
    Max(lo, Min(hi, v))
  }

  /** Step 1 of a frame: the catcher snaps to the pointer, then is clamped into the canvas. */
  function Aim(s: Session, g: Geometry): Session
  {
    s.(catcherX := Clamp(g.catcherW / 2.0, g.width - g.catcherW / 2.0, s.targetX))
  }

  /** The pointer moved to canvas position `x`: both `targetX` and `x` follow, unclamped. */
  function Point(s: Session, x: real): Session
  {
    s.(targetX := x, catcherX := x)
  }

  // ---------------------------------------------------------------- spawner

  /** A ball placed at random draw `rnd`, just above the top edge, falling at `speed`. */
  function Spawned(g: Geometry, speed: real, rnd: real): (b: Ball)
    ensures b.y == -g.ballH && b.vy == speed && b.w == g.ballW && b.h == g.ballH
    ensures 0.0 <= rnd < 1.0 && g.ballW < g.width ==>
              g.ballW / 2.0 <= b.x < g.width - g.ballW / 2.0
  {
    var span := g.width - g.ballW;
    assert 0.0 <= rnd < 1.0 && 0.0 < span ==> rnd * span < span by {
      if 0.0 <= rnd < 1.0 && 0.0 < span {
        assert span - rnd * span == (1.0 - rnd) * span;
      }
    }
    Ball(rnd * span + g.ballW / 2.0, -g.ballH, speed, g.ballW, g.ballH)
  }

  /** Whether the spawn accumulator, after adding `dt`, strictly exceeds the interval. */
  predicate SpawnDue(s: Session, dt: real)
  {
    s.spawnTimer + dt > s.cfg.spawn
  }

  /** Step 2 of a frame: accumulate `dt`; when due, reset and push one ball. */
  function Spawn(s: Session, g: Geometry, dt: real, rnd: real): Session
  {
    if SpawnDue(s, dt) then
      s.(spawnTimer := 0.0, balls := s.balls + [Spawned(g, s.cfg.speed, rnd)])
    else
      s.(spawnTimer := s.spawnTimer + dt)
  }

  // ---------------------------------------------------------------- sweep

  /** A ball after falling for `dt` seconds. */
  function Fallen(b: Ball, dt: real): Ball
  {
    b.(y := b.y + b.vy * dt)
  }

  /** The ball's centre is strictly inside the catcher's box when the catcher is at `cx`. */
  predicate InCatchZone(b: Ball, cx: real, g: Geometry)
  {
    cx - g.catcherW / 2.0 < b.x < cx + g.catcherW / 2.0 &&
    g.catcherY - g.catcherH < b.y < g.catcherY
  }

  /** Classification of an already moved ball: a catch wins over a miss. */
  function FateOf(b: Ball, cx: real, g: Geometry): (f: Fate)
    ensures f == Caught <==> InCatchZone(b, cx, g)
    ensures f == Missed <==> !InCatchZone(b, cx, g) && b.y > g.height
    ensures f == Falling <==> !InCatchZone(b, cx, g) && b.y <= g.height
  {
    if InCatchZone(b, cx, g) then Caught
    else if b.y > g.height then Missed
    else Falling
  }

  /** The fate of ball `b` in a frame of length `dt`: it moves first, then is classified. */
  function Outcome(b: Ball, cx: real, g: Geometry, dt: real): Fate
  {
    FateOf(Fallen(b, dt), cx, g)
  }

  /** The balls that stay on the field, moved, in their original order. */
  function Survivors(s: seq<Ball>, cx: real, g: Geometry, dt: real): seq<Ball>
    decreases |s|
  {
    if s == [] then []
    else
      (if Outcome(s[0], cx, g, dt) == Falling then [Fallen(s[0], dt)] else [])
      + Survivors(s[1..], cx, g, dt)
  }

  /** How many balls of `s` meet fate `f`. */
  function Count(s: seq<Ball>, cx: real, g: Geometry, dt: real, f: Fate): nat
    decreases |s|
  {
    if s == [] then 0
    else (if Outcome(s[0], cx, g, dt) == f then 1 else 0) + Count(s[1..], cx, g, dt, f)
  }

  /** Positions in `s` of the balls that stay (used to state the order of the survivors). */
  function Kept(s: seq<Ball>, cx: real, g: Geometry, dt: real): seq<nat>
    decreases |s|
  {
    if s == [] then []
    else
      (if Outcome(s[0], cx, g, dt) == Falling then [0] else [])
      + Shift(Kept(s[1..], cx, g, dt))
  }

  function Shift(q: seq<nat>): seq<nat>
  {
    seq(|q|, k requires 0 <= k < |q| => q[k] + 1)
  }

  /**
   * Step 3 of a frame: move every ball, remove the caught ones (score +10
   * each) and the missed ones (one life each); the game is over once a miss
   * leaves no lives.
   */
  function Sweep(s: Session, g: Geometry, dt: real): Session
  {
    var caught := Count(s.balls, s.catcherX, g, dt, Caught);
    var missed := Count(s.balls, s.catcherX, g, dt, Missed);
    var lives := s.lives - missed;
    var over := missed > 0 && lives <= 0;
    s.(balls := Survivors(s.balls, s.catcherX, g, dt),
       score := s.score + Reward * caught,
       lives := lives,
       gameOver := s.gameOver || over,
       gameOverTimer := if over then 0.0 else s.gameOverTimer)
  }

  /** One run of the game's per-frame update: aim, spawn, sweep. */
  function Update(s: Session, g: Geometry, dt: real, rnd: real): Session
  {
    Sweep(Spawn(Aim(s, g), g, dt, rnd), g, dt)
  }

  // ---------------------------------------------------------------- lifecycle

  /** The game-over screen's timer; once it reaches the dwell the menu returns. */
  function Linger(s: Session, dt: real): Session
  {
    if !s.gameOver then s
    else
      var t := s.(gameOverTimer := s.gameOverTimer + dt);
      if t.gameOverTimer >= Dwell then ToMenu(t) else t
  }

  /** One animation frame: the update runs only while playing and not over; then the dwell. */
  function Frame(s: Session, g: Geometry, dt: real, rnd: real): Session
  {
    Linger(if s.playing && !s.gameOver then Update(s, g, dt, rnd) else s, dt)
  }

  /** A run of frames, one per `(dt, rnd)` pair, in order. */
  function Frames(s: Session, g: Geometry, steps: seq<(real, real)>): Session
    decreases |steps|
  {
    if steps == [] then s
    else Frames(Frame(s, g, steps[0].0, steps[0].1), g, steps[1..])
  }

  /** Back to the main screen: no round, no balls, score 0, lives of the current mode. */
  function ToMenu(s: Session): Session
  {
    s.(playing := false, gameOver := false, balls := [], score := 0, lives := s.cfg.lives)
  }

  /** A new round: everything reset, catcher centred. */
  function Start(s: Session, g: Geometry): Session
  {
    s.(score := 0, lives := s.cfg.lives, balls := [], gameOver := false, playing := true,
       spawnTimer := 0.0, catcherX := g.width / 2.0, targetX := g.width / 2.0)
  }

  /** A mode button: a known key selects its preset, any other key is ignored. */
  function SelectMode(s: Session, m: string): Session
  {
    match Lookup(m)
    case None => s
    case Some(c) => s.(mode := m, cfg := c)
  }

  /** The state when the page has loaded. */
  function Initial(g: Geometry): Session
  {
    Session(DefaultMode, Table[DefaultMode], 0, Table[DefaultMode].lives, false, false, [],
            0.0, 0.0, g.width / 2.0, g.width / 2.0)
  }

  // ---------------------------------------------------------------- invariant

  /**
   * What holds between frames: the mode is a table key with its preset; the
   * game is over exactly when no lives are left, and only during a round;
   * the menu has no balls and a zero score; no ball is below the canvas.
   */
  ghost predicate Inv(s: Session, g: Geometry)
  {
    s.mode in Table && s.cfg == Table[s.mode] &&
    (s.gameOver ==> s.playing) &&
    (s.gameOver <==> s.lives <= 0) &&
    (!s.playing ==> s.balls == [] && s.score == 0) &&
    (forall i :: 0 <= i < |s.balls| ==> s.balls[i].y <= g.height)
  }

  // ---------------------------------------------------------------- sweep lemmas

  /** Every ball is classified exactly once, and the survivors are the `Falling` ones. */
  lemma {:induction false} CountPartition(s: seq<Ball>, cx: real, g: Geometry, dt: real)
    ensures Count(s, cx, g, dt, Caught) + Count(s, cx, g, dt, Missed)
            + Count(s, cx, g, dt, Falling) == |s|
    ensures |Survivors(s, cx, g, dt)| == Count(s, cx, g, dt, Falling)
  {
    if s != [] {
      CountPartition(s[1..], cx, g, dt);
    }
  }

  /**
   * One step of the in-place sweep: with `cur` holding the untouched prefix
   * of `pre` followed by the survivors of what comes after position `i`,
   * writing the moved ball at `i` and then removing it (when it is caught or
   * missed) leaves the prefix up to `i` followed by the survivors from `i` on.
   */
  lemma SpliceAt(pre: seq<Ball>, cur: seq<Ball>, i: nat, cx: real, g: Geometry, dt: real)
    requires i < |pre| && cur == pre[..i + 1] + Survivors(pre[i + 1..], cx, g, dt)
    ensures i < |cur| && cur[i] == pre[i]
    ensures var upd := cur[i := Fallen(pre[i], dt)];
      (Outcome(pre[i], cx, g, dt) != Falling ==>
         upd[..i] + upd[i + 1..] == pre[..i] + Survivors(pre[i..], cx, g, dt)) &&
      (Outcome(pre[i], cx, g, dt) == Falling ==>
         upd == pre[..i] + Survivors(pre[i..], cx, g, dt))
  {
    assert pre[i..][1..] == pre[i + 1..];
    var upd := cur[i := Fallen(pre[i], dt)];
    var rest := Survivors(pre[i + 1..], cx, g, dt);
    assert upd[..i] == pre[..i];
    assert upd[i + 1..] == rest;
    assert upd == upd[..i] + [upd[i]] + upd[i + 1..];
  }

  /** Sweeping from position `i` on: ball `i` is counted, then the rest. */
  lemma CountAt(pre: seq<Ball>, i: nat, cx: real, g: Geometry, dt: real)
    requires i < |pre|
    ensures Count(pre[i..], cx, g, dt, Caught) ==
              (if Outcome(pre[i], cx, g, dt) == Caught then 1 else 0) + Count(pre[i + 1..], cx, g, dt, Caught)
    ensures Count(pre[i..], cx, g, dt, Missed) ==
              (if Outcome(pre[i], cx, g, dt) == Missed then 1 else 0) + Count(pre[i + 1..], cx, g, dt, Missed)
  {
    assert pre[i..][1..] == pre[i + 1..];
  }

  /** No survivor is below the canvas or inside the catcher. */
  lemma {:induction false} SurvivorsOnField(s: seq<Ball>, cx: real, g: Geometry, dt: real)
    ensures forall k :: 0 <= k < |Survivors(s, cx, g, dt)| ==>
              Survivors(s, cx, g, dt)[k].y <= g.height &&
              !InCatchZone(Survivors(s, cx, g, dt)[k], cx, g)
  {
    if s != [] {
      SurvivorsOnField(s[1..], cx, g, dt);
    }
  }

  /** The survivors are the kept balls, each moved by `vy * dt`. */
  lemma {:induction false} KeptAreSurvivors(s: seq<Ball>, cx: real, g: Geometry, dt: real)
    ensures |Kept(s, cx, g, dt)| == |Survivors(s, cx, g, dt)|
    ensures forall k :: 0 <= k < |Kept(s, cx, g, dt)| ==>
              Kept(s, cx, g, dt)[k] < |s| &&
              Survivors(s, cx, g, dt)[k] == Fallen(s[Kept(s, cx, g, dt)[k]], dt)
  {
    if s != [] {
      var tail := s[1..];
      KeptAreSurvivors(tail, cx, g, dt);
      var K', S' := Kept(tail, cx, g, dt), Survivors(tail, cx, g, dt);
      var K, S := Kept(s, cx, g, dt), Survivors(s, cx, g, dt);
      var stays := Outcome(s[0], cx, g, dt) == Falling;
      var d := if stays then 1 else 0;
      assert K == (if stays then [0] else []) + Shift(K');
      assert S == (if stays then [Fallen(s[0], dt)] else []) + S';
      forall k | 0 <= k < |K|
        ensures K[k] < |s| && S[k] == Fallen(s[K[k]], dt)
      {
        if k >= d {
          assert K[k] == K'[k - d] + 1;
          assert S[k] == S'[k - d];
          assert s[K[k]] == tail[K'[k - d]];
        }
      }
    }
  }

  /** The kept positions are strictly increasing: the survivors keep their relative order. */
  lemma {:induction false} KeptIncreasing(s: seq<Ball>, cx: real, g: Geometry, dt: real)
    ensures forall k1, k2 :: 0 <= k1 < k2 < |Kept(s, cx, g, dt)| ==>
              Kept(s, cx, g, dt)[k1] < Kept(s, cx, g, dt)[k2]
  {
    if s != [] {
      var tail := s[1..];
      KeptIncreasing(tail, cx, g, dt);
      var K' := Kept(tail, cx, g, dt);
      var K := Kept(s, cx, g, dt);
      var stays := Outcome(s[0], cx, g, dt) == Falling;
      var d := if stays then 1 else 0;
      assert K == (if stays then [0] else []) + Shift(K');
      forall k1, k2 | 0 <= k1 < k2 < |K|
        ensures K[k1] < K[k2]
      {
        assert K[k2] == K'[k2 - d] + 1;
        if k1 >= d {
          assert K[k1] == K'[k1 - d] + 1;
        }
      }
    }
  }

  /** Shifting a list of positions moves each member up by one. */
  lemma ShiftMembers(q: seq<nat>, j: nat)
    ensures j in Shift(q) <==> j > 0 && j - 1 in q
  {
    if j in Shift(q) {
      var k :| 0 <= k < |q| && Shift(q)[k] == j;
      assert q[k] == j - 1;
    }
    if j > 0 && j - 1 in q {
      var k :| 0 <= k < |q| && q[k] == j - 1;
      assert Shift(q)[k] == j;
    }
  }

  /** A position is kept exactly when its ball neither is caught nor misses. */
  lemma {:induction false} KeptExactly(s: seq<Ball>, cx: real, g: Geometry, dt: real)
    ensures forall j :: 0 <= j < |s| ==>
              (Outcome(s[j], cx, g, dt) == Falling <==> j in Kept(s, cx, g, dt))
  {
    if s != [] {
      var tail := s[1..];
      KeptExactly(tail, cx, g, dt);
      var K' := Kept(tail, cx, g, dt);
      var stays := Outcome(s[0], cx, g, dt) == Falling;
      assert Kept(s, cx, g, dt) == (if stays then [0] else []) + Shift(K');
      forall j | 0 <= j < |s|
        ensures Outcome(s[j], cx, g, dt) == Falling <==> j in Kept(s, cx, g, dt)
      {
        ShiftMembers(K', j);
        if j > 0 {
          assert s[j] == tail[j - 1];
        }
      }
    }
  }

  // ---------------------------------------------------------------- frame lemmas

  /** Wherever the pointer was, an update leaves the catcher inside the canvas. */
  lemma CatcherInside(s: Session, g: Geometry, dt: real, rnd: real)
    requires g.catcherW <= g.width
    ensures g.catcherW / 2.0 <= Update(s, g, dt, rnd).catcherX <= g.width - g.catcherW / 2.0
    ensures Update(s, g, dt, rnd).catcherX ==
            Clamp(g.catcherW / 2.0, g.width - g.catcherW / 2.0, s.targetX)
  {
  }

  /**
   * An update pushes at most one ball, whatever `dt` is, exactly when the
   * accumulator strictly exceeds the interval, and then resets it.
   */
  lemma SpawnOnce(s: Session, g: Geometry, dt: real, rnd: real)
    ensures var t := Spawn(Aim(s, g), g, dt, rnd);
      (SpawnDue(s, dt) ==> t.balls == s.balls + [Spawned(g, s.cfg.speed, rnd)] && t.spawnTimer == 0.0) &&
      (!SpawnDue(s, dt) ==> t.balls == s.balls && t.spawnTimer == s.spawnTimer + dt)
    ensures Update(s, g, dt, rnd).spawnTimer == if s.spawnTimer + dt > s.cfg.spawn then 0.0 else s.spawnTimer + dt
  {
  }

  /**
   * Accounting of one update: score grows by 10 per caught ball, lives fall by
   * one per missed ball, every ball on the field (including the one just
   * spawned) is caught, missed or kept, and no more than one ball is added.
   */
  lemma {:induction false} UpdateAccounting(s: Session, g: Geometry, dt: real, rnd: real)
    ensures var m := Spawn(Aim(s, g), g, dt, rnd);
      var t := Update(s, g, dt, rnd);
      var caught := Count(m.balls, m.catcherX, g, dt, Caught);
      var missed := Count(m.balls, m.catcherX, g, dt, Missed);
      t.score == s.score + Reward * caught &&
      t.lives == s.lives - missed &&
      |m.balls| == |t.balls| + caught + missed &&
      |m.balls| <= |s.balls| + 1
    ensures Update(s, g, dt, rnd).score >= s.score
    ensures s.lives - |s.balls| - 1 <= Update(s, g, dt, rnd).lives <= s.lives
    ensures |Update(s, g, dt, rnd).balls| <= |s.balls| + 1
  {
    var m := Spawn(Aim(s, g), g, dt, rnd);
    CountPartition(m.balls, m.catcherX, g, dt);
  }

  /**
   * A miss that leaves no lives ends the round with the dwell timer at 0;
   * otherwise the game-over flag and timer are left alone.
   */
  lemma UpdateGameOver(s: Session, g: Geometry, dt: real, rnd: real)
    ensures var m := Spawn(Aim(s, g), g, dt, rnd);
      var t := Update(s, g, dt, rnd);
      var missed := Count(m.balls, m.catcherX, g, dt, Missed);
      (missed > 0 && t.lives <= 0 ==> t.gameOver && t.gameOverTimer == 0.0) &&
      (!(missed > 0 && t.lives <= 0) ==> t.gameOver == s.gameOver && t.gameOverTimer == s.gameOverTimer)
    ensures var t := Update(s, g, dt, rnd);
      t.mode == s.mode && t.cfg == s.cfg && t.playing == s.playing && t.targetX == s.targetX
  {
  }

  /** The frame gate: outside a running round a frame does not update anything. */
  lemma FrameGate(s: Session, g: Geometry, dt: real, rnd: real)
    ensures !s.playing && !s.gameOver ==> Frame(s, g, dt, rnd) == s
    ensures s.gameOver ==> Frame(s, g, dt, rnd) == Linger(s, dt)
    ensures s.playing && !s.gameOver ==> Frame(s, g, dt, rnd) == Linger(Update(s, g, dt, rnd), dt)
  {
  }

  /**
   * On the game-over screen each frame adds `dt` to the dwell timer, and the
   * menu comes back once it reaches 1.2 seconds.
   */
  lemma DwellTimer(s: Session, g: Geometry, dt: real, rnd: real)
    requires s.gameOver
    ensures var t := Frame(s, g, dt, rnd);
      (s.gameOverTimer + dt < Dwell ==> t == s.(gameOverTimer := s.gameOverTimer + dt)) &&
      (s.gameOverTimer + dt >= Dwell ==>
         !t.playing && !t.gameOver && t.balls == [] && t.score == 0 && t.lives == s.cfg.lives &&
         t.mode == s.mode)
  {
  }

  /**
   * Lives are not clamped at zero: two balls that miss in the same frame
   * with one life left end the round at -1 lives.
   */
  lemma LivesCanGoNegative()
    ensures var g := Geometry(400.0, 1000.0, 40.0, 40.0, 920.0, 120.0, 14.0);
      var b := Ball(20.0, 999.0, 900.0, 40.0, 40.0);
      var s := Session("normal", Table["normal"], 0, 1, false, true, [b, b], 0.0, 0.0, 200.0, 200.0);
      var t := Update(s, g, 0.1, 0.5);
      Inv(s, g) && t.lives == -1 && t.gameOver
  {
    var g := Geometry(400.0, 1000.0, 40.0, 40.0, 920.0, 120.0, 14.0);
    var b := Ball(20.0, 999.0, 900.0, 40.0, 40.0);
    var s := Session("normal", Table["normal"], 0, 1, false, true, [b, b], 0.0, 0.0, 200.0, 200.0);
    var m := Spawn(Aim(s, g), g, 0.1, 0.5);
    assert m.balls == [b, b];
    assert Outcome(b, m.catcherX, g, 0.1) == Missed;
    assert m.balls[1..] == [b];
    assert [b][1..] == [];
    assert Count([b], m.catcherX, g, 0.1, Missed) == 1;
    assert Count(m.balls, m.catcherX, g, 0.1, Missed) == 2;
  }

  // ---------------------------------------------------------------- invariant lemmas

  lemma InitialInv(g: Geometry)
    ensures Inv(Initial(g), g) && PhaseOf(Initial(g)) == Menu
  {
  }

  /** Changing mode keeps the invariant, changes only the mode, and is idempotent. */
  lemma SelectModeFacts(s: Session, g: Geometry, m: string)
    requires Inv(s, g)
    ensures Inv(SelectMode(s, m), g)
    ensures m !in Table ==> SelectMode(s, m) == s
    ensures m in Table ==> SelectMode(s, m) == s.(mode := m, cfg := Table[m])
    ensures SelectMode(SelectMode(s, m), m) == SelectMode(s, m)
  {
  }

  /** A new round is running, with an empty field, zero score and the mode's lives. */
  lemma StartFacts(s: Session, g: Geometry)
    requires Inv(s, g)
    ensures Inv(Start(s, g), g) && PhaseOf(Start(s, g)) == Playing
    ensures Start(s, g).lives == s.cfg.lives > 0 && Start(s, g).mode == s.mode
  {
  }

  /** The main screen keeps the mode and shows a fresh score and the mode's lives. */
  lemma ToMenuFacts(s: Session, g: Geometry)
    requires s.mode in Table && s.cfg == Table[s.mode]
    ensures Inv(ToMenu(s), g) && PhaseOf(ToMenu(s)) == Menu
    ensures ToMenu(s).mode == s.mode && ToMenu(s).lives == Table[s.mode].lives
  {
  }

  lemma PointFacts(s: Session, g: Geometry, x: real)
    requires Inv(s, g)
    ensures Inv(Point(s, x), g)
    ensures Point(s, x).catcherX == x && Point(s, x).targetX == x
  {
  }

  /** An update during a round keeps the invariant, with every ball left on the canvas. */
  lemma UpdateKeepsInv(s: Session, g: Geometry, dt: real, rnd: real)
    requires Inv(s, g) && PhaseOf(s) == Playing
    ensures Inv(Update(s, g, dt, rnd), g)
    ensures PhaseOf(Update(s, g, dt, rnd)) != Menu
  {
    var m := Spawn(Aim(s, g), g, dt, rnd);
    SurvivorsOnField(m.balls, m.catcherX, g, dt);
  }

  /**
   * A frame keeps the invariant and moves between screens only as the game
   * does: the menu stays put, a round ends only when the lives run out, and
   * the game-over screen leaves only for the menu, once the dwell is over.
   */
  lemma FramePhases(s: Session, g: Geometry, dt: real, rnd: real)
    requires Inv(s, g)
    ensures Inv(Frame(s, g, dt, rnd), g)
    ensures PhaseOf(s) == Menu ==> Frame(s, g, dt, rnd) == s
    ensures PhaseOf(s) == Playing ==>
              (PhaseOf(Frame(s, g, dt, rnd)) == Playing <==> Update(s, g, dt, rnd).lives > 0)
    ensures PhaseOf(s) == Over ==>
              PhaseOf(Frame(s, g, dt, rnd)) != Playing &&
              (PhaseOf(Frame(s, g, dt, rnd)) == Menu <==> s.gameOverTimer + dt >= Dwell)
  {
    if PhaseOf(s) == Playing {
      UpdateKeepsInv(s, g, dt, rnd);
      ToMenuFacts(Update(s, g, dt, rnd).(gameOverTimer := Update(s, g, dt, rnd).gameOverTimer + dt), g);
    } else if PhaseOf(s) == Over {
      ToMenuFacts(s.(gameOverTimer := s.gameOverTimer + dt), g);
    }
  }

  /** A frame that does not end on the main screen neither lowers the score nor raises the lives. */
  lemma FrameMonotone(s: Session, g: Geometry, dt: real, rnd: real)
    ensures var t := Frame(s, g, dt, rnd);
      PhaseOf(t) != Menu ==> t.score >= s.score && t.lives <= s.lives
  {
    if s.playing && !s.gameOver {
      UpdateAccounting(s, g, dt, rnd);
    }
  }

  /**
   * Over any run of frames that does not end on the main screen the score
   * never falls and the lives never rise; a run that starts on the main
   * screen stays there, whatever the frame lengths.
   */
  lemma {:induction false} RoundMonotone(s: Session, g: Geometry, steps: seq<(real, real)>)
    requires Inv(s, g)
    decreases |steps|
    ensures var t := Frames(s, g, steps);
      PhaseOf(t) != Menu ==> t.score >= s.score && t.lives <= s.lives
    ensures PhaseOf(s) == Menu ==> Frames(s, g, steps) == s
  {
    if steps != [] {
      var (dt, rnd) := steps[0];
      var t := Frame(s, g, dt, rnd);
      FramePhases(s, g, dt, rnd);
      FrameMonotone(s, g, dt, rnd);
      RoundMonotone(t, g, steps[1..]);
    }
  }
}
