/** The Barrel Invaders engine: the closure's variables become the fields of
    one Engine object, and its inner functions become methods that change
    those fields in place, each proved against the rule in ArcadeRules that
    describes it. Rendering, the HUD text nodes, event registration and frame
    scheduling are not modelled; timestamps and random draws are inputs. */
module Arcade {

  import opened Wrappers
  import opened ArcadeRules

  class Engine {
    const width: real
    const height: real

    var running: bool
    var paused: bool
    var last: real
    var score: int
    var lives: int
    var level: nat
    var player: Player
    var bullets: seq<Bullet>
    var invaders: seq<Invader>
    var enemyBullets: seq<Bullet>
    var status: Status

    var keys: Keys
    var touchStartX: Option<real>
    var touchCurrentX: Option<real>
    var isTouching: bool

    /** The game as the rules see it. */
    function State(): Game
      reads this
    {
      Game(width, height, running, paused, score, lives, level, player,
           bullets, invaders, enemyBullets, status)
    }

    /** A touch in progress always has a start position. */
    ghost predicate TouchValid()
      reads this`isTouching, this`touchStartX
    {
      isTouching ==> touchStartX.Some?
    }

    /** The closure's initial state followed by the `reset()` it runs on load. */
    constructor (canvasWidth: nat, canvasHeight: nat)
      ensures State() == ResetGame(Game(canvasWidth as real, canvasHeight as real, false, false, 0, StartLives, 1,
        Player(canvasWidth as real / 2.0, canvasHeight as real - 40.0, 40.0, 14.0, 260.0, 0.0), [], [], [], Ready))
      ensures !running && !paused && score == 0 && lives == 3 && level == 1 && invaders == Wave(1)
      ensures last == 0.0 && keys == Keys(false, false, false)
      ensures touchStartX == None && touchCurrentX == None && !isTouching
      ensures TouchValid()
    {
      width := canvasWidth as real;
      height := canvasHeight as real;
      running, paused, last := false, false, 0.0;
      score, lives, level := 0, 3, 1;
      keys := Keys(false, false, false);
      touchStartX, touchCurrentX, isTouching := None, None, false;
      player := Player(canvasWidth as real / 2.0, canvasHeight as real - 40.0, 40.0, 14.0, 260.0, 0.0);
      bullets, invaders, enemyBullets := [], [], [];
      status := Ready;
      new;
      Reset();
    }

    // -------------------------------------------------------------------
    // Input handlers

    /** `keydown`: Left/a/A sets left, Right/d/D sets right, the Space key sets fire. */
    method KeyDown(key: string, code: string)
      modifies this`keys
      ensures keys.left == (old(keys.left) || key in ["ArrowLeft", "a", "A"])
      ensures keys.right == (old(keys.right) || key in ["ArrowRight", "d", "D"])
      ensures keys.space == (old(keys.space) || code == "Space")
    {
      if key in ["ArrowLeft", "a", "A"] { keys := keys.(left := true); }
      if key in ["ArrowRight", "d", "D"] { keys := keys.(right := true); }
      if code == "Space" { keys := keys.(space := true); }
    }

    /** `keyup`: clears the flag the key sets. */
    method KeyUp(key: string, code: string)
      modifies this`keys
      ensures keys.left == (old(keys.left) && key !in ["ArrowLeft", "a", "A"])
      ensures keys.right == (old(keys.right) && key !in ["ArrowRight", "d", "D"])
      ensures keys.space == (old(keys.space) && code != "Space")
    {
      if key in ["ArrowLeft", "a", "A"] { keys := keys.(left := false); }
      if key in ["ArrowRight", "d", "D"] { keys := keys.(right := false); }
      if code == "Space" { keys := keys.(space := false); }
    }

    /** `touchstart`: remember where the touch began and fire. */
    method TouchStart(x: real)
      modifies this`touchStartX, this`touchCurrentX, this`isTouching, this`keys
      ensures touchStartX == Some(x) && touchCurrentX == Some(x) && isTouching
      ensures keys == old(keys).(space := true)
      ensures TouchValid()
    {
      touchStartX := Some(x);
      touchCurrentX := Some(x);
      isTouching := true;
      keys := keys.(space := true);
    }

    /** The 100 ms timer `touchstart` sets: it clears fire whatever happened since. */
    method FirePulseExpired()
      modifies this`keys
      ensures keys == old(keys).(space := false)
    {
      keys := keys.(space := false);
    }

    /** `touchmove`: steer by how far the touch has moved from where it began. */
    method TouchMove(x: real)
      requires TouchValid()
      modifies this`touchCurrentX, this`keys
      ensures !isTouching ==> touchCurrentX == old(touchCurrentX) && keys == old(keys)
      ensures isTouching ==> touchCurrentX == Some(x) && keys == TouchSteer(old(keys), x - touchStartX.value)
    {
      if !isTouching { return; }
      touchCurrentX := Some(x);
      var deltaX := x - touchStartX.value;
      if deltaX > TouchSensitivity {
        keys := keys.(right := true, left := false);
      } else if deltaX < -TouchSensitivity {
        keys := keys.(left := true, right := false);
      } else {
        keys := keys.(left := false, right := false);
      }
    }

    /** `touchend`: stop tracking and release both directions. */
    method TouchEnd()
      modifies this`touchStartX, this`touchCurrentX, this`isTouching, this`keys
      ensures !isTouching && touchStartX == None && touchCurrentX == None
      ensures keys == old(keys).(left := false, right := false)
      ensures TouchValid()
    {
      isTouching := false;
      touchStartX := None;
      touchCurrentX := None;
      keys := keys.(left := false, right := false);
    }

    /** `touchcancel`: release both directions; the positions are kept. */
    method TouchCancel()
      modifies this`isTouching, this`keys
      ensures !isTouching && keys == old(keys).(left := false, right := false)
      ensures TouchValid()
    {
      isTouching := false;
      keys := keys.(left := false, right := false);
    }

    // -------------------------------------------------------------------
    // Waves, reset and shooting

    /** `spawnWave()`: replace the formation by the wave of the current level. */
    method SpawnWave()
      modifies this`invaders
      ensures invaders == Wave(level)
    {
      invaders := [];
      var rows := 4 + (if level < 3 then level else 3);
      var r := 0;
      while r < rows
        invariant 0 <= r <= rows == Rows(level)
        invariant invaders == Formation(r)
      {
        var c := 0;
        while c < 8
          invariant 0 <= c <= 8
          invariant invaders == Formation(r) + Row(r)[..c]
        {
          assert Row(r)[..c + 1] == Row(r)[..c] + [Row(r)[c]];
          invaders := invaders + [Invader(60.0 + c as real * 46.0, 80.0 + r as real * 36.0, 28.0, 18.0, 40.0, true)];
          c := c + 1;
        }
        assert Row(r)[..8] == Row(r);
        r := r + 1;
      }
    }

    /** `reset()`: score 0, three lives, level 1, the player centred, no
        bullets, the first wave, status 'Ready'. */
    method Reset()
      modifies this`score, this`lives, this`level, this`player, this`bullets,
               this`enemyBullets, this`invaders, this`status
      ensures State() == ResetGame(old(State()))
    {
      score := 0;
      lives := 3;
      level := 1;
      player := player.(x := width / 2.0);
      bullets := [];
      enemyBullets := [];
      SpawnWave();
      status := Ready;
    }

    /** `shoot()`: only when the cooldown has run out, one bullet at the
        player's nose moving up at 380 px/s, and a 240 ms cooldown. */
    method Shoot()
      modifies this`bullets, this`player
      ensures old(player.cooldown) <= 0.0 ==>
        && bullets == old(bullets) + [Bullet(old(player.x), old(player.y) - 10.0, 3.0, -380.0)]
        && player == old(player).(cooldown := 240.0)
      ensures old(player.cooldown) > 0.0 ==> bullets == old(bullets) && player == old(player)
      ensures State() == Fire(old(State()))
    {
      if player.cooldown <= 0.0 {
        bullets := bullets + [Bullet(player.x, player.y - 10.0, 3.0, -380.0)];
        player := player.(cooldown := 240.0);
      }
    }

    /** `enemyShoot(inv)`: one bullet just below the invader, moving down at 200 px/s. */
    method EnemyShoot(inv: Invader)
      modifies this`enemyBullets
      ensures enemyBullets == old(enemyBullets) + [EnemyShot(inv)]
    {
      enemyBullets := enemyBullets + [Bullet(inv.x, inv.y + 6.0, 3.0, 200.0)];
    }

    // -------------------------------------------------------------------
    // The simulation step

    /** Player movement with clamping, the cooldown tick, and a held fire. */
    method MovePlayer(dt: real)
      modifies this`player, this`bullets
      ensures State() == Steer(old(State()), keys, dt)
    {
      ghost var g := State();
      if keys.left { player := player.(x := player.x - player.speed * dt); }
      if keys.right { player := player.(x := player.x + player.speed * dt); }
      player := player.(x := Max(player.w / 2.0, Min(width - player.w / 2.0, player.x)));
      player := player.(cooldown := player.cooldown - dt * 1000.0);
      assert player == Steered(g.player, keys, dt, width);
      if keys.space { Shoot(); }
    }

    /** Bullet motion, then the culling of bullets that left the playfield. */
    method AdvanceBullets(dt: real)
      modifies this`bullets, this`enemyBullets
      ensures State() == Volleys(old(State()), dt)
    {
      MoveBullets(dt);
      MoveEnemyBullets(dt);
      CullBullets();
      CullEnemyBullets();
    }

    /** `bullets.forEach(b => b.y += b.vy * dt)`. */
    method MoveBullets(dt: real)
      modifies this`bullets
      ensures bullets == Advanced(old(bullets), dt)
    {
      var i := 0;
      while i < |bullets|
        invariant 0 <= i <= |bullets| == |old(bullets)|
        invariant forall k :: 0 <= k < i ==> bullets[k] == old(bullets)[k].(y := old(bullets)[k].y + old(bullets)[k].vy * dt)
        invariant forall k :: i <= k < |bullets| ==> bullets[k] == old(bullets)[k]
      {
        bullets := bullets[i := bullets[i].(y := bullets[i].y + bullets[i].vy * dt)];
        i := i + 1;
      }
      assert forall k :: 0 <= k < |bullets| ==> bullets[k] == Advanced(old(bullets), dt)[k];
    }

    /** `enemyBullets.forEach(b => b.y += b.vy * dt)`. */
    method MoveEnemyBullets(dt: real)
      modifies this`enemyBullets
      ensures enemyBullets == Advanced(old(enemyBullets), dt)
    {
      var i := 0;
      while i < |enemyBullets|
        invariant 0 <= i <= |enemyBullets| == |old(enemyBullets)|
        invariant forall k :: 0 <= k < i ==>
          enemyBullets[k] == old(enemyBullets)[k].(y := old(enemyBullets)[k].y + old(enemyBullets)[k].vy * dt)
        invariant forall k :: i <= k < |enemyBullets| ==> enemyBullets[k] == old(enemyBullets)[k]
      {
        enemyBullets := enemyBullets[i := enemyBullets[i].(y := enemyBullets[i].y + enemyBullets[i].vy * dt)];
        i := i + 1;
      }
      assert forall k :: 0 <= k < |enemyBullets| ==> enemyBullets[k] == Advanced(old(enemyBullets), dt)[k];
    }

    /** Player bullets past the top edge are spliced out, scanning from the end. */
    method CullBullets()
      modifies this`bullets
      ensures bullets == InFlight(old(bullets))
    {
      var bs := bullets;
      var i := |bs|;
      while i > 0
        invariant 0 <= i <= |old(bullets)|
        invariant bs == old(bullets)[..i] + InFlight(old(bullets)[i..])
        modifies {}
      {
        i := i - 1;
        SplitAt(old(bullets), i);
        if bs[i].y < TopCull {
          bs := Remove(bs, i);
        }
      }
      assert old(bullets)[..0] == [] && old(bullets)[0..] == old(bullets);
      bullets := bs;
    }

    /** Enemy bullets past the bottom edge are spliced out, scanning from the end. */
    method CullEnemyBullets()
      modifies this`enemyBullets
      ensures enemyBullets == OnScreen(old(enemyBullets), height)
    {
      var ebs := enemyBullets;
      var i := |ebs|;
      while i > 0
        invariant 0 <= i <= |old(enemyBullets)|
        invariant ebs == old(enemyBullets)[..i] + OnScreen(old(enemyBullets)[i..], height)
        modifies {}
      {
        i := i - 1;
        SplitAt(old(enemyBullets), i);
        if ebs[i].y > height + BottomCullMargin {
          ebs := Remove(ebs, i);
        }
      }
      assert old(enemyBullets)[..0] == [] && old(enemyBullets)[0..] == old(enemyBullets);
      enemyBullets := ebs;
    }

    /** The formation moves, each invader may fire, and the formation turns
        and drops once when any invader crossed an edge. */
    method MarchFormation(dt: real, rolls: seq<real>)
      requires |rolls| == |invaders|
      modifies this`invaders, this`enemyBullets
      ensures State() == March(old(State()), dt, rolls)
    {
      var switchDir := MoveInvaders(dt, rolls);
      if switchDir {
        TurnFormation();
      }
    }

    /** The first `invaders.forEach`: move, note an edge crossing, and fire
        when the invader's draw is below 0.002 * level. */
    method MoveInvaders(dt: real, rolls: seq<real>) returns (switchDir: bool)
      requires |rolls| == |invaders|
      modifies this`invaders, this`enemyBullets
      ensures invaders == Marched(old(invaders), dt)
      ensures enemyBullets == old(enemyBullets) + Salvo(invaders, rolls, level)
      ensures switchDir == AnyOutside(invaders, width)
    {
      ghost var moved := Marched(invaders, dt);
      switchDir := false;
      var k := 0;
      while k < |invaders|
        invariant 0 <= k <= |invaders| == |moved| == |rolls|
        invariant forall j :: 0 <= j < k ==> invaders[j] == moved[j]
        invariant forall j :: k <= j < |invaders| ==> invaders[j] == old(invaders)[j]
        invariant switchDir == AnyOutside(moved[..k], width)
        invariant enemyBullets == old(enemyBullets) + Salvo(moved[..k], rolls[..k], level)
      {
        MarchPrefix(moved, rolls, level, width, k);
        var inv := invaders[k];
        inv := inv.(x := inv.x + inv.vx * dt);
        assert inv == moved[k];
        invaders := invaders[k := inv];
        if inv.x > width - 30.0 || inv.x < 30.0 { switchDir := true; }
        if rolls[k] < 0.002 * level as real { EnemyShoot(inv); }
        k := k + 1;
      }
      assert moved[..k] == moved && rolls[..k] == rolls;
      assert invaders == moved;
    }

    /** The second `invaders.forEach`: reverse and drop 16 px. */
    method TurnFormation()
      modifies this`invaders
      ensures invaders == Turned(old(invaders))
    {
      var j := 0;
      while j < |invaders|
        invariant 0 <= j <= |invaders| == |old(invaders)|
        invariant forall m :: 0 <= m < j ==> invaders[m] == old(invaders)[m].(vx := -old(invaders)[m].vx, y := old(invaders)[m].y + Drop)
        invariant forall m :: j <= m < |invaders| ==> invaders[m] == old(invaders)[m]
      {
        invaders := invaders[j := invaders[j].(vx := invaders[j].vx * -1.0, y := invaders[j].y + 16.0)];
        j := j + 1;
      }
      assert forall m :: 0 <= m < |invaders| ==> invaders[m] == Turned(old(invaders))[m];
    }

    /** Bullets against invaders: each bullet, from the last, destroys the
        last live invader it overlaps and is destroyed with it. */
    method ResolveBulletHits()
      modifies this`bullets, this`invaders, this`score
      ensures State() == BulletHits(old(State()))
    {
      ghost var bs := bullets;
      ghost var tail: seq<Bullet> := [];
      ghost var kills: nat := 0;
      PendingEnds(bs, invaders, tail, kills);
      var i := |bullets|;
      assert bs[..i] == bs;
      while i > 0
        invariant 0 <= i <= |bs|
        invariant bullets == bs[..i] + tail
        invariant score == old(score) + KillScore * kills
        invariant Shootout(bs, old(invaders)) == Pending(bs, i, invaders, tail, kills)
      {
        PendingStep(bs, i, invaders, tail, kills);
        i := i - 1;
        SplitAt(bs, i);
        RemoveAtSeam(bs[..i], bs[i], tail);
        var hit := StrikeInvader(i);
        if hit {
          kills := kills + 1;
        } else {
          tail := [bs[i]] + tail;
        }
      }
      PendingEnds(bs, invaders, tail, kills);
    }

    /** The inner loop of the bullet pass for bullet `i`: scanning the
        invaders from the end, the first live one it overlaps is spliced out
        together with the bullet, for 10 points. */
    method StrikeInvader(i: nat) returns (hit: bool)
      requires i < |bullets|
      modifies this`bullets, this`invaders, this`score
      ensures hit == Target(old(bullets)[i], old(invaders)).Some?
      ensures hit ==> && bullets == Remove(old(bullets), i)
                      && invaders == Remove(old(invaders), Target(old(bullets)[i], old(invaders)).value)
                      && score == old(score) + KillScore
      ensures !hit ==> bullets == old(bullets) && invaders == old(invaders) && score == old(score)
    {
      var b := bullets[i];
      hit := false;
      var j := |invaders|;
      while j > 0
        invariant 0 <= j <= |invaders|
        invariant invaders == old(invaders) && bullets == old(bullets) && score == old(score)
        invariant forall m :: j <= m < |invaders| ==> !Strikes(b, invaders[m])
      {
        j := j - 1;
        var inv := invaders[j];
        if !inv.alive { continue; }
        if Abs(b.x - inv.x) < inv.w / 2.0 && Abs(b.y - inv.y) < inv.h / 2.0 {
          assert Target(b, invaders) == Some(j);
          bullets := Remove(bullets, i);
          invaders := Remove(invaders, j);
          score := score + 10;
          hit := true;
          break;
        }
      }
      if !hit {
        assert Target(b, invaders) == None;
      }
    }

    /** Enemy bullets against the player: every hit removes the bullet and a
        life; a hit that leaves no lives pauses the game and stops the run. */
    method ResolveEnemyHits()
      modifies this`enemyBullets, this`lives, this`status, this`paused, this`running
      ensures State() == EnemyHits(old(State()))
    {
      ghost var ebs := enemyBullets;
      ghost var start := Outcome(status, paused, running);
      EnemyTallyEnds(ebs, player, lives, start);
      var p := player;
      var kept, left, o := enemyBullets, lives, Outcome(status, paused, running);
      var i := |kept|;
      while i > 0
        invariant 0 <= i <= |ebs|
        invariant Tally(kept, left, o) == EnemyTally(ebs, i, p, old(lives), start)
        modifies {}
      {
        i := i - 1;
        EnemyTallyStep(ebs, i, p, old(lives), start);
        var b := kept[i];
        if Grazes(b, p) {
          kept := Remove(kept, i);
          left := left - 1;
          o := o.(status := if left > 0 then Hit else GameOver);
          if left <= 0 {
            o := Outcome(Paused, true, false);
          }
        }
      }
      enemyBullets, lives := kept, left;
      status, paused, running := o.status, o.paused, o.running;
    }

    /** `update(dt)`: the movements, the collisions, then the next wave when
        the formation is gone. `rolls[k]` is the random draw of the k-th
        invader. */
    method Update(dt: real, rolls: seq<real>)
      requires |rolls| == |invaders|
      modifies this`player, this`bullets, this`enemyBullets, this`invaders, this`score,
               this`lives, this`level, this`status, this`paused, this`running
      ensures State() == Step(old(State()), keys, dt, rolls)
    {
      ghost var g := State();
      Move(dt, rolls);
      Collisions();
      ghost var h := State();
      assert h == Collide(Advance(g, keys, dt, rolls));
      NextLevel();
    }

    /** The player, the bullets and the formation move, in that order. */
    method Move(dt: real, rolls: seq<real>)
      requires |rolls| == |invaders|
      modifies this`player, this`bullets, this`enemyBullets, this`invaders
      ensures State() == Advance(old(State()), keys, dt, rolls)
    {
      MovePlayer(dt);
      AdvanceBullets(dt);
      MarchFormation(dt, rolls);
    }

    /** Player bullets against invaders, then enemy bullets against the player. */
    method Collisions()
      modifies this`bullets, this`invaders, this`score, this`enemyBullets, this`lives,
               this`status, this`paused, this`running
      ensures State() == Collide(old(State()))
    {
      ResolveBulletHits();
      ResolveEnemyHits();
    }

    /** A cleared formation brings the next level and its wave. */
    method NextLevel()
      modifies this`level, this`invaders, this`status
      ensures State() == NextWave(old(State()))
    {
      if |invaders| == 0 {
        level := level + 1;
        SpawnWave();
        status := Level(level);
      }
    }

    /** `loop(ts)`: one frame of at most 33 ms while running and not paused. */
    method Frame(ts: real, rolls: seq<real>)
      requires |rolls| == |invaders|
      modifies this`player, this`bullets, this`enemyBullets, this`invaders, this`score,
               this`lives, this`level, this`status, this`paused, this`running, this`last
      ensures !old(running) || old(paused) ==> State() == old(State()) && last == old(last)
      ensures old(running) && !old(paused) ==>
        last == ts && State() == Step(old(State()), keys, FrameDt(ts, old(last)), rolls)
    {
      if !running || paused { return; }
      var dt := Min(0.033, (ts - last) / 1000.0);
      last := ts;
      Update(dt, rolls);
    }

    // -------------------------------------------------------------------
    // Controller

    /** `start()`: does nothing when already running. */
    method Start(now: real)
      modifies this`running, this`paused, this`status, this`last
      ensures old(running) ==> running && paused == old(paused) && status == old(status) && last == old(last)
      ensures !old(running) ==> running && !paused && status == Blank && last == now
    {
      if !running {
        running := true;
        paused := false;
        status := Blank;
        last := now;
      }
    }

    /** `pause()`. */
    method Pause()
      modifies this`paused, this`status
      ensures paused && status == Paused
    {
      paused := true;
      status := Paused;
    }

    /** `resume()`: acts only on a running, paused game. */
    method Resume(now: real)
      modifies this`paused, this`last
      ensures old(running && paused) ==> !paused && last == now
      ensures !old(running && paused) ==> paused == old(paused) && last == old(last)
    {
      if running && paused {
        paused := false;
        last := now;
      }
    }

    /** The Start button: a fresh game when not running, otherwise resume. */
    method StartClick(now: real)
      modifies this`score, this`lives, this`level, this`player, this`bullets, this`enemyBullets,
               this`invaders, this`status, this`running, this`paused, this`last
      ensures !old(running) ==>
        State() == ResetGame(old(State())).(running := true, paused := false, status := Blank) && last == now
      ensures old(running) ==> (running && !paused && status == old(status) &&
        (old(paused) ==> last == now) && (!old(paused) ==> last == old(last)))
      ensures old(running) ==> State() == old(State()).(paused := false)
    {
      if !running {
        Reset();
        Start(now);
      } else {
        Resume(now);
      }
    }

    /** The Pause button: resume when paused, otherwise pause. */
    method PauseClick(now: real)
      modifies this`paused, this`status, this`last
      ensures old(paused) ==> (status == old(status) &&
        (old(running) ==> !paused && last == now) && (!old(running) ==> paused && last == old(last)))
      ensures !old(paused) ==> paused && status == Paused && last == old(last)
    {
      if paused {
        Resume(now);
      } else {
        Pause();
      }
    }

    /** The Reset button: stop, then reset. */
    method ResetClick()
      modifies this`score, this`lives, this`level, this`player, this`bullets, this`enemyBullets,
               this`invaders, this`status, this`running, this`paused
      ensures State() == ResetGame(old(State()).(running := false, paused := false))
    {
      running := false;
      paused := false;
      Reset();
    }
  }
}
