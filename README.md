# Barrel Invaders and the contextual auto-reply, in Dafny

This project models two parts of `script.js`.

**The Barrel Invaders arcade engine** (`script.js:291-553`).
- The game's state is what the `barrelInvaders` closure keeps:
  - the scalars `running`, `paused`, `last`, `score`, `lives` and `level`;
  - the `player` record;
  - the `bullets`, `invaders` and `enemyBullets` lists;
  - the status line;
  - the held-input flags `keys` and the touch tracking variables.
- `update(dt)` runs these phases in a fixed order:
  1. player movement with clamping, then the fire cooldown and a held fire;
  2. bullet motion and culling;
  3. the invaders' march, their random fire, and the formation turning at the edges;
  4. player bullets against invaders;
  5. enemy bullets against the player;
  6. the next wave once the formation is cleared.
- Also modelled:
  - `spawnWave` and `reset`;
  - `shoot` and `enemyShoot`;
  - `loop`'s clamp of the step length;
  - `start`, `pause` and `resume`, and the three buttons;
  - the keyboard and touch handlers.

**The comment auto-reply** (`getContextualReply`, `script.js:802-896`).
- The comment is lower-cased.
- The first of twelve keyword rules the comment mentions picks a reply category.
- The rule's preferred categories are tried in order. A character without any of them falls back to its default category.
- A random line of the chosen category is the reply.

The project has four files:
- `wrappers.dfy` (module `Wrappers`): the `Option` type both parts use.
- `arcade_rules.dfy` (module `ArcadeRules`):
  - the game as a value (`Game`);
  - one function per phase of a step, on that value;
  - the properties of each phase and of the whole step (`Step`).
- `arcade_engine.dfy` (module `Arcade`):
  - class `Engine`, whose fields are the closure's variables;
  - the closure's functions as methods that update those fields in place;
  - each step method's `ensures` (the phases of `update`, `shoot`, `reset` and `loop`) ties the new state `State()` to the rule function of its phase applied to `old(State())`; `spawnWave` builds exactly `Wave(level)`;
  - the key and touch handlers, `enemyShoot`, `start`, `pause`, `resume` and the buttons state the fields they set directly.
  - The loops of the source are there too:
    - the nested `for` of `spawnWave`;
    - the backward splicing loops of the culling and of the two collision passes;
    - the two `forEach` passes of the march.
- `replies.dfy` (module `Replies`):
  - the rule table and the category choice;
  - the pick of a line index.

Inputs the browser supplies become parameters:
- `Math.random()` becomes a list `rolls` with one draw per invader for the march. For the reply pick it becomes one `roll` in [0, 1).
- `performance.now()` and the `requestAnimationFrame` timestamp become `now` and `ts`.
- The canvas size becomes the constructor's arguments.
- The 100 ms timer set by `touchstart` is a method, `FirePulseExpired`, which the host calls when the timer fires.

## Model

| member | source | states |
|---|---|---|
| ArcadeRules.FrameDt | script.js:532 | the step length is `(ts - last)/1000` capped at 0.033 s: never above either, and equal to one of them |
| ArcadeRules.TouchSteer | script.js:355-367 | a touch moved more than 20 px right sets right only, more than 20 px left sets left only, anything else clears both; fire is untouched |
| ArcadeRules.Clamp | script.js:434 | `Math.max(lo, Math.min(hi, x))` lies in [lo, hi] when that range is non-empty; it is x when x is inside, lo when x is below, hi when x is above, and lo when the range is empty |
| ArcadeRules.Steered | script.js:432-435 | the new x is the old x moved by speed*dt to the right for right, to the left for left (both cancel), then clamped to [w/2, width - w/2], so the player lies there when it fits the world; only x and the cooldown change, and the cooldown drops by dt*1000 |
| ArcadeRules.Fire | script.js:414-419 | `shoot()` as a value: a bullet at the player's nose and a 240 ms cooldown when the cooldown has run out, otherwise nothing (`HeldFireStep` and `Arcade.Engine.Shoot` state it) |
| ArcadeRules.Steer | script.js:432-436 | phase 1: `Steered` moves and clamps the player and ticks its cooldown, then a held fire calls `Fire` (`HeldFireStep` states the shot and the cooldown) |
| ArcadeRules.HeldFireStep | script.js:435-436 | with fire held, one phase-1 move (`Steer`) fires exactly one bullet exactly when the ticked cooldown is at most 0, and the cooldown then restarts at 240 ms; otherwise it only ticks |
| ArcadeRules.ShotsAreSpaced | script.js:435-436 | over any sequence of non-negative phase-1 moves (`HoldFire`) with fire held, the first shot needs the starting cooldown to elapse and each further shot another 240 ms |
| ArcadeRules.HoldFireShots | script.js:435-436 | holding fire through a sequence of phase-1 moves (`HoldFire`) adds exactly `ShotsFired(cooldown, dts)` bullets, the count the spacing lemmas are about |
| ArcadeRules.NoShotUntilReloaded | script.js:435-436 | holding fire through phase-1 moves (`HoldFire`) shoots nothing exactly when less time than the starting cooldown elapses |
| ArcadeRules.Volleys | script.js:439-443 | phase 2: both bullet lists move by vy*dt and are culled (`InFlightKeeps` and `OnScreenKeeps` state what is kept) |
| ArcadeRules.InFlightKeeps | script.js:442 | culling keeps exactly the player bullets with y >= -10 and never adds any |
| ArcadeRules.OnScreenKeeps | script.js:443 | culling keeps exactly the enemy bullets with y <= height + 10 and never adds any |
| ArcadeRules.SalvoShots | script.js:447-452 | an invader fires exactly when its draw is below 0.002 * level; the salvo holds exactly one bullet per firing draw (`Firing`), so at most one per invader, and every new enemy bullet comes from such an invader |
| ArcadeRules.March | script.js:446-455 | phase 3: the formation moves, its salvo is appended, and it turns at the edges (`MarchTurnsOnce` and `SalvoShots` state it) |
| ArcadeRules.Salvo | script.js:447-452 | the bullets the invaders fire in one march, in formation order (`SalvoShots` states their number and origin) |
| ArcadeRules.MarchTurnsOnce | script.js:446-455 | every invader moves by vx*dt; if any ends outside [30, width - 30], every invader's vx is negated and its y grows by 16, once; otherwise vx and y are unchanged |
| ArcadeRules.Target | script.js:460-463 | the invader a bullet destroys is a live one it strictly overlaps (half-extents), and no live invader after it in the list overlaps; none means no live invader overlaps |
| ArcadeRules.Shootout | script.js:458-471 | the backward bullet pass as a value: surviving bullets, surviving invaders and the number of hits (the `Shootout...` lemmas state what it keeps and removes) |
| ArcadeRules.ShootoutCounts | script.js:458-471 | each hit removes exactly one bullet and exactly one invader, so a bullet destroys at most one invader |
| ArcadeRules.ShootoutRemovesOnly | script.js:458-471 | the bullet pass only removes: the surviving bullets and invaders are among the ones before it (the `alive` flag is never cleared) |
| ArcadeRules.ShootoutSpares | script.js:458-471 | a bullet that overlaps no live invader survives the bullet pass |
| ArcadeRules.ShootoutKillsStruck | script.js:458-471 | every invader the bullet pass removes overlaps some player bullet |
| ArcadeRules.ShootoutLeavesNoOverlap | script.js:458-471 | after the bullet pass no surviving bullet overlaps a surviving live invader |
| ArcadeRules.BulletHits | script.js:458-471 | phase 4: the bullets and invaders `Shootout` leaves and 10 points per kill (`BulletHitsScore` and the `Shootout...` lemmas state it) |
| ArcadeRules.BulletHitsScore | script.js:464-466 | the bullet pass adds exactly 10 per destroyed invader (and per spent bullet) to the score, which never decreases |
| ArcadeRules.HitOutcome | script.js:476-481 | a pass with hits shows 'Hit!' while lives remain and pauses and stops the run when none remain; without hits nothing changes |
| ArcadeRules.EnemyHits | script.js:474-482 | the enemy pass as a value: the missed bullets, one life less per hit, and the run flags `HitOutcome` gives |
| ArcadeRules.MissedAndHits | script.js:474-482 | the enemy pass removes exactly the bullets that graze the player, one life per removed bullet; no hit exactly when no bullet grazes |
| ArcadeRules.Wave | script.js:393-402 | the formation `spawnWave` builds for a level (`WaveLayout` states its size and grid) |
| ArcadeRules.FormationLayout | script.js:393-402 | a formation of n rows has 8n invaders; the one in row r, column c is at index 8r + c, at (60 + 46c, 80 + 36r), 28 x 18, vx 40, alive |
| ArcadeRules.WaveLayout | script.js:393-402 | the wave of a level has (4 + min(3, level)) x 8 invaders laid out on that grid |
| ArcadeRules.NextWave | script.js:485-487 | phase 6: an empty formation brings level + 1, its wave and status 'Level N'; otherwise nothing changes (`StepNextLevel` states it for a whole step) |
| ArcadeRules.Advance | script.js:432-455 | phases 1-3 in the source's order: `Steer`, `Volleys`, `March` |
| ArcadeRules.Collide | script.js:458-482 | phases 4 and 5: `BulletHits`, then `EnemyHits` (`StepScore` and `StepLives` state their effect on a step) |
| ArcadeRules.Step | script.js:430-488 | one `update(dt)`: movement, collisions, then the next wave (the `Step...` lemmas state what it keeps) |
| ArcadeRules.StepPlayer | script.js:430-488 | only phase 1 touches the player: after a whole step the player is the one `Steer` gives, so with fire held the cooldown follows `HeldFireStep` and `update` keeps the schedule of the spacing lemmas (a new shot may still be culled in the same step) |
| ArcadeRules.StepKeepsPlayerInside | script.js:430-488 | after every step the player's x lies in [w/2, width - w/2] whatever the keys, when the player fits the world |
| ArcadeRules.StepScore | script.js:430-488 | in a step the score never decreases, and grows by 10 for each player bullet spent on an invader |
| ArcadeRules.StepLives | script.js:474-482 | lives never increase in a step; a step whose hits leave no lives pauses the game and stops the run (status 'Paused', or 'Level N' if the wave also clears); without hits the run flags are unchanged |
| ArcadeRules.StepCullsBullets | script.js:439-452 | at the end of a step no player bullet has y < -10, and every enemy bullet with y > height + 10 was fired by the formation in that step |
| ArcadeRules.StepNextLevel | script.js:485-487 | the level grows by one, with the new level's wave and status 'Level N', exactly when the collision passes leave no invaders; otherwise level and formation stay |
| ArcadeRules.ResetGame | script.js:404-407 | `reset()` as a value: score 0, three lives, level 1, player centred, no bullets, the first wave, status 'Ready' |
| ArcadeRules.ResetIdempotent | script.js:404-407 | resetting twice gives the same state as resetting once |
| Arcade.Engine.constructor | script.js:303-316 | the closure's initial variables followed by the `reset()` run on load: not running, score 0, three lives, level 1, the first wave, no input held |
| Arcade.Engine.KeyDown | script.js:319-323 | ArrowLeft/a/A set left, ArrowRight/d/D set right, the Space code sets fire; other flags keep their value |
| Arcade.Engine.KeyUp | script.js:324-328 | the same keys clear the same flags |
| Arcade.Engine.TouchStart | script.js:335-345 | a touch records its start and current position, marks touching and sets fire |
| Arcade.Engine.FirePulseExpired | script.js:344 | the 100 ms timer clears fire and nothing else |
| Arcade.Engine.TouchMove | script.js:347-368 | outside a touch nothing changes; during one the current position is recorded and the direction flags are `TouchSteer` of the distance from the start |
| Arcade.Engine.TouchEnd | script.js:370-377 | ends the touch, forgets both positions and releases both directions |
| Arcade.Engine.TouchCancel | script.js:380-385 | ends the touch and releases both directions, keeping the positions |
| Arcade.Engine.SpawnWave | script.js:393-402 | the formation becomes exactly the current level's wave (`WaveLayout` gives its size and grid) |
| Arcade.Engine.Reset | script.js:404-407 | score 0, lives 3, level 1, player centred, both bullet lists empty, the first wave, status 'Ready'; nothing else changes |
| Arcade.Engine.Shoot | script.js:414-419 | when the cooldown is at most 0, appends one bullet at (x, y - 10), radius 3, vy -380, and sets the cooldown to 240; otherwise changes nothing |
| Arcade.Engine.EnemyShoot | script.js:421-423 | appends one bullet at (x, y + 6), radius 3, vy 200 |
| Arcade.Engine.MovePlayer | script.js:432-436 | the player moves, is clamped, its cooldown ticks, and a held fire shoots, as `Steer` says |
| Arcade.Engine.AdvanceBullets | script.js:439-443 | both bullet lists move and are culled, as `Volleys` says |
| Arcade.Engine.MoveBullets | script.js:439 | every player bullet moves by vy*dt, in place, order kept |
| Arcade.Engine.MoveEnemyBullets | script.js:440 | every enemy bullet moves by vy*dt, in place, order kept |
| Arcade.Engine.CullBullets | script.js:442 | the backward splicing loop leaves exactly the in-flight bullets in order (`InFlightKeeps`) |
| Arcade.Engine.CullEnemyBullets | script.js:443 | the backward splicing loop leaves exactly the on-screen enemy bullets in order (`OnScreenKeeps`) |
| Arcade.Engine.MarchFormation | script.js:446-455 | the formation marches, fires and turns, as `March` says |
| Arcade.Engine.MoveInvaders | script.js:447-453 | every invader moves by vx*dt; the invaders whose draw fires append their shots in formation order; the returned flag says whether any moved invader is outside [30, width - 30] |
| Arcade.Engine.TurnFormation | script.js:454 | every invader's vx is negated and its y grows by 16 |
| Arcade.Engine.ResolveBulletHits | script.js:458-471 | the backward pass over the bullets leaves the bullets, invaders and score `BulletHits` gives |
| Arcade.Engine.StrikeInvader | script.js:459-470 | bullet i hits exactly when `Target` finds an invader; a hit splices out that bullet and that invader and adds 10; a miss changes nothing |
| Arcade.Engine.ResolveEnemyHits | script.js:474-482 | the backward pass leaves the missing enemy bullets, one life less per hit, 'Hit!' while lives remain, and after a lethal hit 'Paused', paused and not running, as `EnemyHits` says |
| Arcade.Engine.Update | script.js:430-488 | one step changes the game exactly as `Step` says (so `StepKeepsPlayerInside`, `StepScore`, `StepLives`, `StepCullsBullets` and `StepNextLevel` hold of it) |
| Arcade.Engine.Move | script.js:432-455 | the movement phases, as `Advance` says |
| Arcade.Engine.Collisions | script.js:458-482 | the two collision passes, as `Collide` says |
| Arcade.Engine.NextLevel | script.js:485-487 | an empty formation brings level + 1, its wave and status 'Level N'; otherwise nothing changes |
| Arcade.Engine.Frame | script.js:530-537 | a frame does nothing unless running and not paused; otherwise it records `ts` and runs one step of `FrameDt(ts, last)` |
| Arcade.Engine.Start | script.js:539-541 | a no-op when already running; otherwise running, not paused, blank status, clock restarted |
| Arcade.Engine.Pause | script.js:542 | paused, status 'Paused' |
| Arcade.Engine.Resume | script.js:543 | acts only when running and paused: unpauses and restarts the clock |
| Arcade.Engine.StartClick | script.js:546 | when not running, a reset game that is running and unpaused; otherwise a resume, which changes nothing but `paused` and the clock |
| Arcade.Engine.PauseClick | script.js:547 | resumes when paused (which does nothing unless running), pauses otherwise |
| Arcade.Engine.ResetClick | script.js:548 | stops and unpauses, then resets |
| Replies.Persona | script.js:807-849 | a character is found only under its own key (`Name`); any other key has no table |
| Replies.PersonaName | script.js:807-845 | every character's table is found under its key |
| Replies.LowerChar | script.js:803 | a capital letter becomes the lower-case letter at the same place in the alphabet; no capital remains and no other character changes |
| Replies.Lower | script.js:803 | the lower-cased comment has the same length and is lower-cased letter by letter |
| Replies.LowerIdempotent | script.js:803 | lower-casing twice is lower-casing once |
| Replies.Contains | script.js:852-889 | `includes(k)` on the lower-cased comment (`ContainsAt` ties it to an occurrence) |
| Replies.ContainsAt | script.js:852-889 | `includes(k)` holds exactly when k occurs at some offset |
| Replies.FirstRule | script.js:852-889 | the rule chosen is mentioned and no earlier rule is; none is chosen exactly when no rule is mentioned |
| Replies.Pick | script.js:853-888 | `a \|\| b \|\| default` gives a preferred category the character has when there is one, and the default when there is none |
| Replies.PickFirst | script.js:866-881 | the pick is never a later preference than one the character has (truth before conspiracy, deal before business, romance before style) |
| Replies.Scaled | script.js:894-896 | `floor(roll * n)` for a roll in [0, 1) is an index into a list of n > 0 lines |
| Replies.Category | script.js:848-891 | the category `getContextualReply` settles on (`CategoryAvailable`, `FirstMentionWins` and `CategoryEarned` state its properties) |
| Replies.ContextualReply | script.js:802-896 | the reply: generic thanks for an unknown name, else a line of the chosen category picked by the roll (`ReplyInRange` states its range) |
| Replies.CategoryAvailable | script.js:848-891 | the chosen category is always in the character's table |
| Replies.SilentDefault | script.js:891 | a comment that mentions no keyword gets a default line |
| Replies.FirstMentionWins | script.js:852-889 | the first rule mentioned decides: its first preference when the character has it, whatever later rules the comment also mentions, and the default when the character has none of its preferences |
| Replies.CategoryEarned | script.js:852-889 | a non-default category belongs to the first rule the comment mentions |
| Replies.GreatMeansFood | script.js:861-885 | keywords are matched as substrings, so "great" mentions the food rule's "eat" before the compliment rule's "great": Mary answers with food, and Carl, who has no food lines, with his default rather than a compliment |
| Replies.ReplyInRange | script.js:848-896 | the reply is the generic thanks exactly for an unknown character; otherwise it names an existing line of an available category of that character |

## Left out

- Rendering is not modelled: `draw`, `roundRect` and the canvas calls produce pixels only.
- `updateHUD` and the status text node are not modelled. The status line is kept as a `Status` value instead.
- Event-listener registration, `e.preventDefault()`, `requestAnimationFrame` scheduling, `performance.now()` and `setTimeout` are host plumbing.
  - `Frame` is one call of `loop`; the re-scheduling is the host's.
  - The touch timer is `FirePulseExpired`.
- The debug `console.log` of the comment (`script.js:804`) is not modelled: it only writes to the console.
- `Math.random()` is not modelled. Its draws are the `rolls` and `roll` parameters.
- Numbers are exact reals, not IEEE doubles. Rounding in positions and in `dt` is not captured.
- The starfield, the mailing-list handler, the menus and the post/comment page glue are not modelled. The PHP files are not part of this model.
- `rectsOverlap` (`script.js:426-428`) is never called by the game, so it has no counterpart.
- Replies.Lower: only ASCII capitals are lower-cased. Unicode case mapping of `toLowerCase` is not modelled.
- Replies.Persona: a key inherited through the object prototype (such as `toString`) is treated as unknown. In the source such a key makes the reply code fail.
- The reply texts are not copied. A reply is named by its character, category and line index; `Lines` records how many lines each category has.
- Arcade.Engine.ResolveEnemyHits: the loop works on local copies of the enemy list, lives and status flags, and stores them in the fields after the loop. The source writes the fields at every hit. No other code runs in between, so the result is the same.
  - The `pause()` call in that loop is written out in place: paused, status 'Paused'.
  - The HUD refresh is left out.
- Arcade.Engine.MoveInvaders and Arcade.Engine.TurnFormation: the two `forEach` passes update each invader of the list in place. The model replaces the element at the same index with the updated record; the source mutates the object. Invaders are not shared with anything else, so the result is the same.
- Arcade.Engine.Update: grouping the phases into `Move`, `Collisions` and `NextLevel` only names parts of `update`; the order of the statements is the source's.
