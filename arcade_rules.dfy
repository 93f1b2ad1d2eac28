/** The rules of the Barrel Invaders arcade game as functions on a snapshot of
    the game: one function per phase of a simulation step, in the order the
    step runs them, and the properties those phases guarantee. The class in
    module Arcade performs the same phases in place and is proved against
    these functions. */
module ArcadeRules {

  import opened Wrappers

  /** A player bullet or an enemy bullet: centre, radius, vertical velocity (px/s). */
  datatype Bullet = Bullet(x: real, y: real, r: real, vy: real)

  /** One invader of the formation. `alive` is set at spawn and never cleared:
      a destroyed invader is removed from the list instead. */
  datatype Invader = Invader(x: real, y: real, w: real, h: real, vx: real, alive: bool)

  /** The player's ship; `cooldown` is the time to the next shot in milliseconds. */
  datatype Player = Player(x: real, y: real, w: real, h: real, speed: real, cooldown: real)

  /** The intent flags the keyboard and touch handlers set and each step polls. */
  datatype Keys = Keys(left: bool, right: bool, space: bool)

  /** The status line: 'Ready', '', 'Hit!', 'Game Over', 'Paused' or `Level N`. */
  datatype Status = Ready | Blank | Hit | GameOver | Paused | Level(n: nat)

  /** Everything a simulation step reads or writes, except the intent flags. */
  datatype Game = Game(
    width: real, height: real,
    running: bool, paused: bool,
    score: int, lives: int, level: nat,
    player: Player,
    bullets: seq<Bullet>, invaders: seq<Invader>, enemyBullets: seq<Bullet>,
    status: Status)

  const ShotCooldown: real := 240.0
  const ShotSpeed: real := -380.0
  const EnemyShotSpeed: real := 200.0
  const BulletRadius: real := 3.0
  const TopCull: real := -10.0
  const BottomCullMargin: real := 10.0
  const EdgeMargin: real := 30.0
  const Drop: real := 16.0
  const Columns: nat := 8
  const KillScore: int := 10
  const StartLives: int := 3
  const FireRatePerLevel: real := 0.002
  const MaxDt: real := 0.033
  const TouchSensitivity: real := 20.0

  function Min(a: real, b: real): real { if a <= b then a else b }

  function Max(a: real, b: real): real { if a >= b then a else b }

  function Abs(a: real): real { if a < 0.0 then -a else a }

  /** `splice(j, 1)`: the sequence without its element at index j. */
  function Remove<T>(s: seq<T>, j: nat): seq<T>
    requires j < |s|
  {
    s[..j] + s[j + 1..]
  }

  /** Splitting a sequence around its element at index i. */
  lemma SplitAt<T>(s: seq<T>, i: nat)
    requires i < |s|
    ensures s[..i + 1] == s[..i] + [s[i]]
    ensures s[i..] == [s[i]] + s[i + 1..]
  {
  }

  /** Removing the element at the seam of a concatenation. */
  lemma RemoveAtSeam<T>(a: seq<T>, x: T, b: seq<T>)
    ensures Remove(a + [x] + b, |a|) == a + b
    ensures a + [x] + b == a + ([x] + b)
  {
    assert (a + [x] + b)[..|a|] == a;
    assert (a + [x] + b)[|a| + 1..] == b;
  }

  // ---------------------------------------------------------------------
  // The frame clock and the touch gesture

  /** `Math.min(0.033, (ts - last) / 1000)`: the step length in seconds. */
  function FrameDt(ts: real, last: real): (dt: real)
    ensures dt <= MaxDt && dt <= (ts - last) / 1000.0
    ensures dt == MaxDt || dt == (ts - last) / 1000.0
  {
    Min(MaxDt, (ts - last) / 1000.0)
  }

  /** The intent flags after a touch has moved `deltaX` pixels from where it started. */
  function TouchSteer(keys: Keys, deltaX: real): (k: Keys)
    ensures k.right <==> deltaX > TouchSensitivity
    ensures k.left <==> deltaX < -TouchSensitivity
    ensures !(k.left && k.right)
    ensures k.space == keys.space
  {
    if deltaX > TouchSensitivity then keys.(right := true, left := false)
    else if deltaX < -TouchSensitivity then keys.(left := true, right := false)
    else keys.(left := false, right := false)
  }

  // ---------------------------------------------------------------------
  // Phase 1: the player moves, the cooldown ticks, a held fire shoots

  /** `Math.max(lo, Math.min(hi, x))`: the lower bound wins when the range is empty. */
  function Clamp(x: real, lo: real, hi: real): (r: real)
    ensures lo <= r
    ensures lo <= hi ==> r <= hi
    ensures lo <= x <= hi ==> r == x
    ensures lo <= hi && x < lo ==> r == lo
    ensures lo <= hi && hi < x ==> r == hi
    ensures hi < lo ==> r == lo
  {
    Max(lo, Min(hi, x))
  }

  /** The cooldown after a step of `dt` seconds (the cooldown is in milliseconds). */
  function Reload(cooldown: real, dt: real): real { cooldown - dt * 1000.0 }

  /** The player after the movement keys and the cooldown tick of one step. */
  function Steered(p: Player, keys: Keys, dt: real, width: real): (q: Player)
    ensures p.w <= width ==> p.w / 2.0 <= q.x <= width - p.w / 2.0
    ensures q.x == Clamp(p.x + (if keys.right then p.speed * dt else 0.0) - (if keys.left then p.speed * dt else 0.0),
                         p.w / 2.0, width - p.w / 2.0)
    ensures q == p.(x := q.x, cooldown := Reload(p.cooldown, dt))
  {
    var x1 := if keys.left then p.x - p.speed * dt else p.x;
    var x2 := if keys.right then x1 + p.speed * dt else x1;
    p.(x := Clamp(x2, p.w / 2.0, width - p.w / 2.0), cooldown := Reload(p.cooldown, dt))
  }

  /** The bullet `shoot()` creates at the player's nose. */
  function Shot(p: Player): Bullet { Bullet(p.x, p.y - 10.0, BulletRadius, ShotSpeed) }

  /** `shoot()`: a bullet and a fresh cooldown when the cooldown has run out. */
  function Fire(g: Game): Game {
    if g.player.cooldown <= 0.0 then
      g.(player := g.player.(cooldown := ShotCooldown), bullets := g.bullets + [Shot(g.player)])
    else g
  }

  function Steer(g: Game, keys: Keys, dt: real): Game {
    var moved := g.(player := Steered(g.player, keys, dt, g.width));
    if keys.space then Fire(moved) else moved
  }

  /** With fire held, a step shoots exactly when the ticked cooldown is at most
      zero, and then the cooldown restarts at 240 ms; otherwise it only ticks. */
  lemma HeldFireStep(g: Game, keys: Keys, dt: real)
    requires keys.space
    ensures var h := Steer(g, keys, dt);
      var fired := Reload(g.player.cooldown, dt) <= 0.0;
      && h.bullets == g.bullets + (if fired then [Shot(Steered(g.player, keys, dt, g.width))] else [])
      && h.player.cooldown == (if fired then ShotCooldown else Reload(g.player.cooldown, dt))
  {
  }

  function Sum(dts: seq<real>): real {
    if dts == [] then 0.0 else dts[0] + Sum(dts[1..])
  }

  /** The number of shots fired while fire is held through frames of the given
      lengths (seconds), starting from the given cooldown. */
  function ShotsFired(cooldown: real, dts: seq<real>): nat
    decreases |dts|
  {
    if dts == [] then 0
    else
      var c := Reload(cooldown, dts[0]);
      if c <= 0.0 then 1 + ShotsFired(ShotCooldown, dts[1..]) else ShotsFired(c, dts[1..])
  }

  /** The cooldown is a rate limit: the first shot needs the starting cooldown
      to elapse, and every further shot another 240 ms. */
  lemma {:induction false} ShotsAreSpaced(cooldown: real, dts: seq<real>)
    requires forall k :: 0 <= k < |dts| ==> dts[k] >= 0.0
    ensures ShotsFired(cooldown, dts) > 0 ==>
      cooldown + ShotCooldown * (ShotsFired(cooldown, dts) - 1) as real <= 1000.0 * Sum(dts)
    ensures Sum(dts) >= 0.0
    decreases |dts|
  {
    if dts != [] {
      var c := Reload(cooldown, dts[0]);
      if c <= 0.0 {
        ShotsAreSpaced(ShotCooldown, dts[1..]);
      } else {
        ShotsAreSpaced(c, dts[1..]);
      }
    }
  }

  /** Holding fire for at least one frame shoots nothing exactly when less than
      the starting cooldown elapses. */
  lemma {:induction false} NoShotUntilReloaded(cooldown: real, dts: seq<real>)
    requires dts != []
    requires forall k :: 0 <= k < |dts| ==> dts[k] >= 0.0
    ensures ShotsFired(cooldown, dts) == 0 <==> 1000.0 * Sum(dts) < cooldown
    decreases |dts|
  {
    var c := Reload(cooldown, dts[0]);
    ShotsAreSpaced(c, dts[1..]);
    if c > 0.0 && dts[1..] != [] {
      NoShotUntilReloaded(c, dts[1..]);
    }
  }

  /** Phase 1 repeated over frames of the given lengths with the same keys held. */
  function HoldFire(g: Game, keys: Keys, dts: seq<real>): Game
    decreases |dts|
  {
    if dts == [] then g else HoldFire(Steer(g, keys, dts[0]), keys, dts[1..])
  }

  /** `ShotsFired` counts exactly the bullets that holding fire through those
      frames adds. */
  lemma {:induction false} HoldFireShots(g: Game, keys: Keys, dts: seq<real>)
    requires keys.space
    ensures |HoldFire(g, keys, dts).bullets| == |g.bullets| + ShotsFired(g.player.cooldown, dts)
    decreases |dts|
  {
    if dts != [] {
      HeldFireStep(g, keys, dts[0]);
      HoldFireShots(Steer(g, keys, dts[0]), keys, dts[1..]);
    }
  }

  // ---------------------------------------------------------------------
  // Phase 2: bullets move and leave the playfield

  function Advanced(bs: seq<Bullet>, dt: real): seq<Bullet> {
    seq(|bs|, k requires 0 <= k < |bs| => bs[k].(y := bs[k].y + bs[k].vy * dt))
  }

  /** The player bullets not yet past the top edge, in order. */
  function InFlight(bs: seq<Bullet>): seq<Bullet> {
    if bs == [] then []
    else (if bs[0].y < TopCull then [] else [bs[0]]) + InFlight(bs[1..])
  }

  /** The enemy bullets not yet past the bottom edge, in order. */
  function OnScreen(bs: seq<Bullet>, height: real): seq<Bullet> {
    if bs == [] then []
    else (if bs[0].y > height + BottomCullMargin then [] else [bs[0]]) + OnScreen(bs[1..], height)
  }

  function Volleys(g: Game, dt: real): Game {
    g.(bullets := InFlight(Advanced(g.bullets, dt)),
       enemyBullets := OnScreen(Advanced(g.enemyBullets, dt), g.height))
  }

  /** Culling keeps exactly the player bullets with y >= -10. */
  lemma {:induction false} InFlightKeeps(bs: seq<Bullet>)
    ensures |InFlight(bs)| <= |bs|
    ensures forall b :: b in InFlight(bs) <==> b in bs && b.y >= TopCull
  {
    if bs != [] {
      InFlightKeeps(bs[1..]);
      assert bs == [bs[0]] + bs[1..];
    }
  }

  /** Culling keeps exactly the enemy bullets with y <= height + 10. */
  lemma {:induction false} OnScreenKeeps(bs: seq<Bullet>, height: real)
    ensures |OnScreen(bs, height)| <= |bs|
    ensures forall b :: b in OnScreen(bs, height) <==> b in bs && b.y <= height + BottomCullMargin
  {
    if bs != [] {
      OnScreenKeeps(bs[1..], height);
      assert bs == [bs[0]] + bs[1..];
    }
  }

  // ---------------------------------------------------------------------
  // Phase 3: the formation marches, fires at random and turns at the edges

  function Marched(invs: seq<Invader>, dt: real): seq<Invader> {
    seq(|invs|, k requires 0 <= k < |invs| => invs[k].(x := invs[k].x + invs[k].vx * dt))
  }

  predicate Outside(inv: Invader, width: real) {
    inv.x > width - EdgeMargin || inv.x < EdgeMargin
  }

  predicate AnyOutside(invs: seq<Invader>, width: real) {
    exists k :: 0 <= k < |invs| && Outside(invs[k], width)
  }

  function Turned(invs: seq<Invader>): seq<Invader> {
    seq(|invs|, k requires 0 <= k < |invs| => invs[k].(vx := -invs[k].vx, y := invs[k].y + Drop))
  }

  /** `Math.random() < 0.002 * level`, with the random draw given as `roll`. */
  predicate Fires(roll: real, level: nat) { roll < FireRatePerLevel * level as real }

  /** The bullet `enemyShoot(inv)` creates just below the invader. */
  function EnemyShot(inv: Invader): Bullet { Bullet(inv.x, inv.y + 6.0, BulletRadius, EnemyShotSpeed) }

  /** The enemy bullets fired by the formation in one step, in formation order. */
  function Salvo(invs: seq<Invader>, rolls: seq<real>, level: nat): seq<Bullet>
    requires |rolls| == |invs|
  {
    if invs == [] then []
    else
      var n := |invs| - 1;
      Salvo(invs[..n], rolls[..n], level) + (if Fires(rolls[n], level) then [EnemyShot(invs[n])] else [])
  }

  /** The salvo and the edge test over the first `k + 1` invaders, from those
      over the first `k`. */
  lemma MarchPrefix(invs: seq<Invader>, rolls: seq<real>, level: nat, width: real, k: nat)
    requires |rolls| == |invs| && k < |invs|
    ensures Salvo(invs[..k + 1], rolls[..k + 1], level)
         == Salvo(invs[..k], rolls[..k], level) + (if Fires(rolls[k], level) then [EnemyShot(invs[k])] else [])
    ensures AnyOutside(invs[..k + 1], width) == (AnyOutside(invs[..k], width) || Outside(invs[k], width))
  {
    assert invs[..k + 1][..k] == invs[..k] && rolls[..k + 1][..k] == rolls[..k];
    assert invs[..k + 1][k] == invs[k];
  }

  function March(g: Game, dt: real, rolls: seq<real>): Game
    requires |rolls| == |g.invaders|
  {
    var moved := Marched(g.invaders, dt);
    g.(invaders := if AnyOutside(moved, g.width) then Turned(moved) else moved,
       enemyBullets := g.enemyBullets + Salvo(moved, rolls, g.level))
  }

  /** The number of draws below 0.002 * level. */
  function Firing(rolls: seq<real>, level: nat): nat {
    if rolls == [] then 0
    else
      var n := |rolls| - 1;
      Firing(rolls[..n], level) + (if Fires(rolls[n], level) then 1 else 0)
  }

  /** An invader fires exactly when its draw is below 0.002 * level, once:
      the salvo has one bullet per firing draw, and every enemy bullet of the
      salvo comes from such an invader. */
  lemma {:induction false} SalvoShots(invs: seq<Invader>, rolls: seq<real>, level: nat)
    requires |rolls| == |invs|
    ensures |Salvo(invs, rolls, level)| == Firing(rolls, level) <= |invs|
    ensures forall k :: 0 <= k < |invs| && Fires(rolls[k], level) ==> EnemyShot(invs[k]) in Salvo(invs, rolls, level)
    ensures forall b :: b in Salvo(invs, rolls, level) ==>
      exists k :: 0 <= k < |invs| && Fires(rolls[k], level) && b == EnemyShot(invs[k])
  {
    if invs != [] {
      var n := |invs| - 1;
      SalvoShots(invs[..n], rolls[..n], level);
      var rest := Salvo(invs[..n], rolls[..n], level);
      forall b | b in Salvo(invs, rolls, level)
        ensures exists k :: 0 <= k < |invs| && Fires(rolls[k], level) && b == EnemyShot(invs[k])
      {
        if b in rest {
          var k :| 0 <= k < n && Fires(rolls[..n][k], level) && b == EnemyShot(invs[..n][k]);
          assert invs[..n][k] == invs[k] && rolls[..n][k] == rolls[k];
        }
      }
    }
  }

  /** When any invader ends its move outside [30, width - 30], the whole
      formation turns and drops 16 px, once; otherwise no invader turns or drops. */
  lemma MarchTurnsOnce(g: Game, dt: real, rolls: seq<real>)
    requires |rolls| == |g.invaders|
    ensures |March(g, dt, rolls).invaders| == |g.invaders|
    ensures forall k :: 0 <= k < |g.invaders| ==>
      March(g, dt, rolls).invaders[k].x == g.invaders[k].x + g.invaders[k].vx * dt
    ensures AnyOutside(Marched(g.invaders, dt), g.width) ==>
      forall k :: 0 <= k < |g.invaders| ==>
        && March(g, dt, rolls).invaders[k].vx == -g.invaders[k].vx
        && March(g, dt, rolls).invaders[k].y == g.invaders[k].y + Drop
    ensures !AnyOutside(Marched(g.invaders, dt), g.width) ==>
      forall k :: 0 <= k < |g.invaders| ==>
        && March(g, dt, rolls).invaders[k].vx == g.invaders[k].vx
        && March(g, dt, rolls).invaders[k].y == g.invaders[k].y
  {
  }

  // ---------------------------------------------------------------------
  // Phase 4: player bullets against invaders

  /** The hit test of the bullet pass: a live invader whose half-extents
      strictly contain the bullet's centre. */
  predicate Strikes(b: Bullet, inv: Invader) {
    inv.alive && Abs(b.x - inv.x) < inv.w / 2.0 && Abs(b.y - inv.y) < inv.h / 2.0
  }

  /** The invader a bullet destroys: the live invader it overlaps with the
      highest index, since the scan runs from the end of the list. */
  function Target(b: Bullet, invs: seq<Invader>): (r: Option<nat>)
    ensures r.Some? ==> r.value < |invs| && Strikes(b, invs[r.value])
    ensures r.Some? ==> forall j :: r.value < j < |invs| ==> !Strikes(b, invs[j])
    ensures r.None? ==> forall j :: 0 <= j < |invs| ==> !Strikes(b, invs[j])
  {
    if invs == [] then None
    else if Strikes(b, invs[|invs| - 1]) then Some(|invs| - 1)
    else Target(b, invs[..|invs| - 1])
  }

  /** What is left of the bullets and the invaders after the bullet pass, and
      how many invaders it destroyed. */
  datatype Skirmish = Skirmish(bullets: seq<Bullet>, invaders: seq<Invader>, kills: nat)

  /** The bullet pass: bullets are taken from the last to the first, each
      against the invaders the later bullets left. */
  function Shootout(bs: seq<Bullet>, invs: seq<Invader>): Skirmish
    decreases |bs|
  {
    if bs == [] then Skirmish([], invs, 0)
    else
      var n := |bs| - 1;
      match Target(bs[n], invs)
      case None =>
        var s := Shootout(bs[..n], invs);
        s.(bullets := s.bullets + [bs[n]])
      case Some(j) =>
        var s := Shootout(bs[..n], Remove(invs, j));
        s.(kills := s.kills + 1)
  }

  /** The bullet pass over the first `i` bullets, unfolded at bullet `i - 1`. */
  lemma ShootoutPrefix(bs: seq<Bullet>, i: nat, invs: seq<Invader>)
    requires 0 < i <= |bs|
    ensures Target(bs[i - 1], invs).None? ==>
      Shootout(bs[..i], invs) == Shootout(bs[..i - 1], invs).(bullets := Shootout(bs[..i - 1], invs).bullets + [bs[i - 1]])
    ensures Target(bs[i - 1], invs).Some? ==>
      var s := Shootout(bs[..i - 1], Remove(invs, Target(bs[i - 1], invs).value));
      Shootout(bs[..i], invs) == s.(kills := s.kills + 1)
  {
    assert bs[..i][..i - 1] == bs[..i - 1];
  }

  /** The bullet pass part-way: the first `i` bullets still to be tried
      against `invs`, with `tail` the bullets that already missed and `kills`
      the hits so far. */
  function Pending(bs: seq<Bullet>, i: nat, invs: seq<Invader>, tail: seq<Bullet>, kills: nat): Skirmish
    requires i <= |bs|
  {
    var s := Shootout(bs[..i], invs);
    Skirmish(s.bullets + tail, s.invaders, s.kills + kills)
  }

  /** Trying bullet `i - 1`: a miss moves it to the tail, a hit removes the
      invader it strikes and counts a kill. */
  lemma PendingStep(bs: seq<Bullet>, i: nat, invs: seq<Invader>, tail: seq<Bullet>, kills: nat)
    requires 0 < i <= |bs|
    ensures Target(bs[i - 1], invs).None? ==>
      Pending(bs, i, invs, tail, kills) == Pending(bs, i - 1, invs, [bs[i - 1]] + tail, kills)
    ensures Target(bs[i - 1], invs).Some? ==>
      Pending(bs, i, invs, tail, kills) == Pending(bs, i - 1, Remove(invs, Target(bs[i - 1], invs).value), tail, kills + 1)
  {
    ShootoutPrefix(bs, i, invs);
    var s := Shootout(bs[..i - 1], invs);
    assert s.bullets + [bs[i - 1]] + tail == s.bullets + ([bs[i - 1]] + tail);
  }

  /** Nothing pending at the start is the whole pass; nothing left to try is the result. */
  lemma PendingEnds(bs: seq<Bullet>, invs: seq<Invader>, tail: seq<Bullet>, kills: nat)
    ensures Pending(bs, |bs|, invs, [], 0) == Shootout(bs, invs)
    ensures Pending(bs, 0, invs, tail, kills) == Skirmish(tail, invs, kills)
  {
    assert bs[..|bs|] == bs;
    assert bs[..0] == [];
  }

  function BulletHits(g: Game): Game {
    var s := Shootout(g.bullets, g.invaders);
    g.(bullets := s.bullets, invaders := s.invaders, score := g.score + KillScore * s.kills)
  }

  /** Each hit removes exactly one bullet and exactly one invader, so a bullet
      destroys at most one invader. */
  lemma {:induction false} ShootoutCounts(bs: seq<Bullet>, invs: seq<Invader>)
    ensures |Shootout(bs, invs).bullets| + Shootout(bs, invs).kills == |bs|
    ensures |Shootout(bs, invs).invaders| + Shootout(bs, invs).kills == |invs|
  {
    if bs != [] {
      var n := |bs| - 1;
      match Target(bs[n], invs)
      case None => ShootoutCounts(bs[..n], invs);
      case Some(j) => ShootoutCounts(bs[..n], Remove(invs, j));
    }
  }

  /** Removing one element takes exactly that element out of the multiset. */
  lemma RemoveTakesOne<T>(s: seq<T>, j: nat)
    requires j < |s|
    ensures multiset(Remove(s, j)) + multiset{s[j]} == multiset(s)
  {
    assert s == s[..j] + [s[j]] + s[j + 1..];
  }

  /** The pass only removes: what survives was there before, unchanged (the
      `alive` flag of a surviving invader is never cleared). */
  lemma {:induction false} ShootoutRemovesOnly(bs: seq<Bullet>, invs: seq<Invader>)
    ensures multiset(Shootout(bs, invs).bullets) <= multiset(bs)
    ensures multiset(Shootout(bs, invs).invaders) <= multiset(invs)
    decreases |bs|
  {
    if bs != [] {
      var n := |bs| - 1;
      assert bs == bs[..n] + [bs[n]];
      assert multiset(bs) == multiset(bs[..n]) + multiset{bs[n]};
      match Target(bs[n], invs)
      case None =>
        ShootoutRemovesOnly(bs[..n], invs);
        var s := Shootout(bs[..n], invs);
        assert multiset(s.bullets + [bs[n]]) == multiset(s.bullets) + multiset{bs[n]};
      case Some(j) =>
        ShootoutRemovesOnly(bs[..n], Remove(invs, j));
        RemoveTakesOne(invs, j);
    }
  }

  /** After the pass no surviving bullet overlaps a surviving live invader. */
  lemma {:induction false} ShootoutLeavesNoOverlap(bs: seq<Bullet>, invs: seq<Invader>)
    ensures forall b, inv :: b in Shootout(bs, invs).bullets && inv in Shootout(bs, invs).invaders ==> !Strikes(b, inv)
  {
    if bs != [] {
      var n := |bs| - 1;
      match Target(bs[n], invs)
      case None =>
        ShootoutLeavesNoOverlap(bs[..n], invs);
        ShootoutRemovesOnly(bs[..n], invs);
        var s := Shootout(bs[..n], invs);
        forall inv | inv in s.invaders ensures !Strikes(bs[n], inv) {
          assert inv in multiset(s.invaders);
          assert inv in invs;
        }
      case Some(j) =>
        ShootoutLeavesNoOverlap(bs[..n], Remove(invs, j));
    }
  }

  /** A bullet that overlaps no live invader survives the bullet pass. */
  lemma {:induction false} ShootoutSpares(bs: seq<Bullet>, invs: seq<Invader>, k: nat)
    requires k < |bs|
    requires forall inv :: inv in invs ==> !Strikes(bs[k], inv)
    ensures bs[k] in Shootout(bs, invs).bullets
    decreases |bs|
  {
    var n := |bs| - 1;
    match Target(bs[n], invs)
    case None =>
      if k < n {
        assert bs[..n][k] == bs[k];
        ShootoutSpares(bs[..n], invs, k);
      }
    case Some(j) =>
      assert invs[j] in invs;
      if k < n {
        assert bs[..n][k] == bs[k];
        forall inv | inv in Remove(invs, j) ensures !Strikes(bs[k], inv) {
          RemoveKeeps(invs, j, inv);
        }
        ShootoutSpares(bs[..n], Remove(invs, j), k);
      }
  }

  /** What survives a removal was there before. */
  lemma RemoveKeeps<T>(s: seq<T>, j: nat, x: T)
    requires j < |s| && x in Remove(s, j)
    ensures x in s
  {
    RemoveTakesOne(s, j);
    assert x in multiset(Remove(s, j));
  }

  /** Every invader the bullet pass destroys was struck by one of the bullets. */
  lemma {:induction false} ShootoutKillsStruck(bs: seq<Bullet>, invs: seq<Invader>)
    ensures forall inv :: inv in multiset(invs) - multiset(Shootout(bs, invs).invaders) ==>
      exists b :: b in bs && Strikes(b, inv)
    decreases |bs|
  {
    if bs != [] {
      var n := |bs| - 1;
      match Target(bs[n], invs)
      case None =>
        ShootoutKillsStruck(bs[..n], invs);
        forall inv | inv in multiset(invs) - multiset(Shootout(bs, invs).invaders)
          ensures exists b :: b in bs && Strikes(b, inv)
        {
          var b :| b in bs[..n] && Strikes(b, inv);
          assert b in bs;
        }
      case Some(j) =>
        var rest := Remove(invs, j);
        ShootoutKillsStruck(bs[..n], rest);
        RemoveTakesOne(invs, j);
        forall inv | inv in multiset(invs) - multiset(Shootout(bs, invs).invaders)
          ensures exists b :: b in bs && Strikes(b, inv)
        {
          if inv == invs[j] {
            assert bs[n] in bs;
          } else {
            assert inv in multiset(rest) - multiset(Shootout(bs[..n], rest).invaders);
            var b :| b in bs[..n] && Strikes(b, inv);
            assert b in bs;
          }
        }
    }
  }

  /** The bullet pass adds 10 per destroyed invader to the score, which
      therefore never decreases. */
  lemma BulletHitsScore(g: Game)
    ensures BulletHits(g).score - g.score == KillScore * (|g.bullets| - |BulletHits(g).bullets|)
    ensures BulletHits(g).score - g.score == KillScore * (|g.invaders| - |BulletHits(g).invaders|)
    ensures BulletHits(g).score >= g.score
  {
    ShootoutCounts(g.bullets, g.invaders);
  }

  // ---------------------------------------------------------------------
  // Phase 5: enemy bullets against the player

  /** The hit test of the enemy pass, against the player's half-extents. */
  predicate Grazes(b: Bullet, p: Player) {
    Abs(b.x - p.x) < p.w / 2.0 && Abs(b.y - p.y) < p.h / 2.0
  }

  /** The enemy bullets that miss the player, in order. */
  function Missed(bs: seq<Bullet>, p: Player): seq<Bullet> {
    if bs == [] then []
    else (if Grazes(bs[0], p) then [] else [bs[0]]) + Missed(bs[1..], p)
  }

  /** The number of enemy bullets that hit the player. */
  function HitCount(bs: seq<Bullet>, p: Player): nat {
    if bs == [] then 0
    else (if Grazes(bs[0], p) then 1 else 0) + HitCount(bs[1..], p)
  }

  /** The status line and the run flags, which the enemy pass may change. */
  datatype Outcome = Outcome(status: Status, paused: bool, running: bool)

  /** The status and run flags after `hits` hits that left `lives` lives. A
      hit leaves 'Hit!'; a lethal one writes 'Game Over', which `pause()`
      overwrites with 'Paused', and stops the run. */
  function HitOutcome(o: Outcome, hits: nat, lives: int): Outcome {
    if hits == 0 then o
    else if lives > 0 then o.(status := Hit)
    else Outcome(Paused, true, false)
  }

  /** The enemy pass: every hit costs a life; the pass does not stop at the
      first hit, so lives can drop by more than one and below zero. */
  function EnemyHits(g: Game): Game {
    var n := HitCount(g.enemyBullets, g.player);
    var lives := g.lives - n;
    var o := HitOutcome(Outcome(g.status, g.paused, g.running), n, lives);
    g.(enemyBullets := Missed(g.enemyBullets, g.player), lives := lives,
       status := o.status, paused := o.paused, running := o.running)
  }

  /** Each hitting enemy bullet is removed and costs exactly one life. */
  lemma {:induction false} MissedAndHits(bs: seq<Bullet>, p: Player)
    ensures |Missed(bs, p)| + HitCount(bs, p) == |bs|
    ensures forall b :: b in Missed(bs, p) <==> b in bs && !Grazes(b, p)
    ensures HitCount(bs, p) == 0 <==> forall b :: b in bs ==> !Grazes(b, p)
  {
    if bs != [] {
      MissedAndHits(bs[1..], p);
      assert bs == [bs[0]] + bs[1..];
    }
  }

  /** The enemy bullets as the backward pass leaves them once it has handled
      the indices from `i` up: each grazing bullet spliced out in turn. */
  function EnemyPass(bs: seq<Bullet>, i: nat, p: Player): (r: seq<Bullet>)
    requires i <= |bs|
    ensures i <= |r| <= |bs| && r[..i] == bs[..i]
    decreases |bs| - i
  {
    if i == |bs| then bs
    else
      var rest := EnemyPass(bs, i + 1, p);
      assert rest[..i + 1][..i] == rest[..i];
      if Grazes(bs[i], p) then Remove(rest, i) else rest
  }

  /** Splicing from the back leaves the prefix not yet visited followed by the
      missing bullets of the visited suffix. */
  lemma {:induction false} EnemyPassSplits(bs: seq<Bullet>, i: nat, p: Player)
    requires i <= |bs|
    ensures EnemyPass(bs, i, p) == bs[..i] + Missed(bs[i..], p)
    decreases |bs| - i
  {
    if i == |bs| {
      assert bs[..i] == bs && bs[i..] == [];
    } else {
      EnemyPassSplits(bs, i + 1, p);
      SplitAt(bs, i);
      assert bs[i..][1..] == bs[i + 1..];
      RemoveAtSeam(bs[..i], bs[i], Missed(bs[i + 1..], p));
    }
  }

  /** The whole backward pass keeps exactly the bullets that miss, and it
      removes as many as hit. */
  lemma EnemyPassMisses(bs: seq<Bullet>, p: Player)
    ensures EnemyPass(bs, 0, p) == Missed(bs, p)
    ensures |bs| - |EnemyPass(bs, 0, p)| == HitCount(bs, p)
  {
    EnemyPassSplits(bs, 0, p);
    assert bs[..0] == [] && bs[0..] == bs;
    MissedAndHits(bs, p);
  }

  /** What the backward enemy pass has produced once it has handled the
      indices from `i` up: the bullets left, the lives left, the outcome. */
  datatype Tally = Tally(kept: seq<Bullet>, lives: int, outcome: Outcome)

  function EnemyTally(bs: seq<Bullet>, i: nat, p: Player, lives: int, o: Outcome): Tally
    requires i <= |bs|
  {
    var kept := EnemyPass(bs, i, p);
    var hits := |bs| - |kept|;
    Tally(kept, lives - hits, HitOutcome(o, hits, lives - hits))
  }

  /** The outcome of one more hit that leaves `left` lives. */
  function Struck(o: Outcome, left: int): Outcome {
    if left > 0 then o.(status := Hit) else Outcome(Paused, true, false)
  }

  /** Handling index `i`: a grazing bullet is spliced out and costs a life. */
  lemma EnemyTallyStep(bs: seq<Bullet>, i: nat, p: Player, lives: int, o: Outcome)
    requires i < |bs|
    ensures var t := EnemyTally(bs, i + 1, p, lives, o);
      && i < |t.kept| && t.kept[i] == bs[i]
      && EnemyTally(bs, i, p, lives, o) ==
           if Grazes(bs[i], p) then Tally(Remove(t.kept, i), t.lives - 1, Struck(t.outcome, t.lives - 1)) else t
  {
    var t := EnemyTally(bs, i + 1, p, lives, o);
    assert t.kept[..i + 1][i] == bs[..i + 1][i];
  }

  /** Before the pass nothing has changed; after it, the bullets that missed,
      one life less per hit, and the outcome of that many hits. */
  lemma EnemyTallyEnds(bs: seq<Bullet>, p: Player, lives: int, o: Outcome)
    ensures EnemyTally(bs, |bs|, p, lives, o) == Tally(bs, lives, o)
    ensures var n := HitCount(bs, p);
      EnemyTally(bs, 0, p, lives, o) == Tally(Missed(bs, p), lives - n, HitOutcome(o, n, lives - n))
  {
    EnemyPassMisses(bs, p);
  }

  // ---------------------------------------------------------------------
  // Phase 6: the next wave

  function Rows(level: nat): nat { 4 + (if level < 3 then level else 3) }

  /** Row `r` of a wave: 8 invaders 46 px apart from x = 60, at y = 80 + 36r,
      28 x 18, moving right at 40 px/s. */
  function Row(r: nat): seq<Invader> {
    seq(Columns, c requires 0 <= c < Columns =>
      Invader(60.0 + 46.0 * c as real, 80.0 + 36.0 * r as real, 28.0, 18.0, 40.0, true))
  }

  /** The first `rows` rows of a wave, row by row. */
  function Formation(rows: nat): seq<Invader> {
    if rows == 0 then [] else Formation(rows - 1) + Row(rows - 1)
  }

  /** `spawnWave()`: 4 + min(3, level) rows of 8 invaders. */
  function Wave(level: nat): seq<Invader> { Formation(Rows(level)) }

  /** A formation of n rows holds 8n invaders; the one in row r and column c
      sits at index 8r + c, at (60 + 46c, 80 + 36r), 28 x 18, moving right at
      40 px/s. */
  lemma {:induction false} FormationLayout(rows: nat, r: nat, c: nat)
    requires r < rows && c < Columns
    ensures |Formation(rows)| == rows * Columns
    ensures r * Columns + c < |Formation(rows)|
    ensures Formation(rows)[r * Columns + c]
         == Invader(60.0 + 46.0 * c as real, 80.0 + 36.0 * r as real, 28.0, 18.0, 40.0, true)
  {
    if r < rows - 1 {
      FormationLayout(rows - 1, r, c);
    } else {
      FormationSize(rows - 1);
    }
  }

  lemma {:induction false} FormationSize(rows: nat)
    ensures |Formation(rows)| == rows * Columns
  {
    if rows > 0 {
      FormationSize(rows - 1);
    }
  }

  /** The wave of a level holds (4 + min(3, level)) x 8 invaders, laid out as
      `FormationLayout` says. */
  lemma WaveLayout(level: nat, r: nat, c: nat)
    requires r < 4 + (if level < 3 then level else 3) && c < 8
    ensures |Wave(level)| == (4 + (if level < 3 then level else 3)) * 8
    ensures r * 8 + c < |Wave(level)|
    ensures Wave(level)[r * 8 + c] == Invader(60.0 + 46.0 * c as real, 80.0 + 36.0 * r as real, 28.0, 18.0, 40.0, true)
  {
    FormationLayout(Rows(level), r, c);
  }

  function NextWave(g: Game): Game {
    if |g.invaders| == 0 then
      g.(level := g.level + 1, invaders := Wave(g.level + 1), status := Level(g.level + 1))
    else g
  }

  // ---------------------------------------------------------------------
  // The whole step, and reset

  /** The phases before the collision passes. */
  function Advance(g: Game, keys: Keys, dt: real, rolls: seq<real>): Game
    requires |rolls| == |g.invaders|
  {
    March(Volleys(Steer(g, keys, dt), dt), dt, rolls)
  }

  function Collide(g: Game): Game { EnemyHits(BulletHits(g)) }

  /** `update(dt)`, with one random draw per invader. */
  function Step(g: Game, keys: Keys, dt: real, rolls: seq<real>): Game
    requires |rolls| == |g.invaders|
  {
    NextWave(Collide(Advance(g, keys, dt, rolls)))
  }

  /** `reset()`: the cooldown, the run flags and the world are left as they were. */
  function ResetGame(g: Game): Game {
    g.(score := 0, lives := StartLives, level := 1, player := g.player.(x := g.width / 2.0),
       bullets := [], enemyBullets := [], invaders := Wave(1), status := Ready)
  }

  /** After every step the player lies in [w/2, width - w/2], whatever the keys. */
  lemma StepKeepsPlayerInside(g: Game, keys: Keys, dt: real, rolls: seq<real>)
    requires |rolls| == |g.invaders|
    requires g.player.w <= g.width
    ensures var h := Step(g, keys, dt, rolls);
      g.player.w / 2.0 <= h.player.x <= g.width - g.player.w / 2.0
  {
  }

  /** Only phase 1 touches the player, so a whole step leaves the player that
      phase 1 gives: `update` keeps the cooldown and shot schedule of
      `HoldFire`, though a new shot may be culled in the same step. */
  lemma StepPlayer(g: Game, keys: Keys, dt: real, rolls: seq<real>)
    requires |rolls| == |g.invaders|
    ensures Step(g, keys, dt, rolls).player == Steer(g, keys, dt).player
    ensures keys.space ==>
      Step(g, keys, dt, rolls).player.cooldown ==
        (if Reload(g.player.cooldown, dt) <= 0.0 then ShotCooldown else Reload(g.player.cooldown, dt))
  {
    if keys.space {
      HeldFireStep(g, keys, dt);
    }
  }

  /** The score never decreases in a step, and grows by 10 per player bullet
      spent on an invader. */
  lemma StepScore(g: Game, keys: Keys, dt: real, rolls: seq<real>)
    requires |rolls| == |g.invaders|
    ensures var a := Advance(g, keys, dt, rolls);
      Step(g, keys, dt, rolls).score - g.score == KillScore * (|a.bullets| - |Step(g, keys, dt, rolls).bullets|)
    ensures Step(g, keys, dt, rolls).score >= g.score
  {
    var a := Advance(g, keys, dt, rolls);
    BulletHitsScore(a);
  }

  /** Lives never increase in a step; a step whose hits leave no lives pauses
      the game and stops the run. */
  lemma StepLives(g: Game, keys: Keys, dt: real, rolls: seq<real>)
    requires |rolls| == |g.invaders|
    ensures Step(g, keys, dt, rolls).lives <= g.lives
    ensures var h := Step(g, keys, dt, rolls);
      h.lives < g.lives && h.lives <= 0 ==>
        h.paused && !h.running && (h.status == Paused || h.status == Level(g.level + 1))
    ensures var h := Step(g, keys, dt, rolls);
      h.lives == g.lives ==> h.paused == g.paused && h.running == g.running
  {
  }

  /** At the end of a step no player bullet has y < -10, and every enemy
      bullet with y > height + 10 was fired by the formation in this step. */
  lemma StepCullsBullets(g: Game, keys: Keys, dt: real, rolls: seq<real>)
    requires |rolls| == |g.invaders|
    ensures forall b :: b in Step(g, keys, dt, rolls).bullets ==> b.y >= TopCull
    ensures forall b :: b in Step(g, keys, dt, rolls).enemyBullets && b.y > g.height + BottomCullMargin ==>
      b in Salvo(Marched(g.invaders, dt), rolls, g.level)
  {
    var s := Steer(g, keys, dt);
    var v := Volleys(s, dt);
    var a := March(v, dt, rolls);
    var h := Step(g, keys, dt, rolls);
    InFlightKeeps(Advanced(s.bullets, dt));
    OnScreenKeeps(Advanced(s.enemyBullets, dt), g.height);
    ShootoutRemovesOnly(a.bullets, a.invaders);
    var hit := BulletHits(a);
    MissedAndHits(hit.enemyBullets, hit.player);
    forall b | b in h.bullets ensures b.y >= TopCull {
      assert b in multiset(hit.bullets);
      assert b in a.bullets;
    }
  }

  /** The level goes up by one, with a fresh wave for it, exactly when the
      collision passes leave no invaders. */
  lemma StepNextLevel(g: Game, keys: Keys, dt: real, rolls: seq<real>)
    requires |rolls| == |g.invaders|
    ensures var c := Collide(Advance(g, keys, dt, rolls));
      var h := Step(g, keys, dt, rolls);
      if |c.invaders| == 0 then
        h.level == g.level + 1 && h.invaders == Wave(g.level + 1) && h.status == Level(g.level + 1)
      else
        h.level == g.level && h.invaders == c.invaders
  {
  }

  /** Resetting twice is the same as resetting once. */
  lemma ResetIdempotent(g: Game)
    ensures ResetGame(ResetGame(g)) == ResetGame(g)
  {
  }
}
