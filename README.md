# Great Emu War — a verified model of the game object

The game is a small arcade match in an 800 × 350 pixel arena. The player's emu
moves with the arrow keys and tramples wheat crops, which scores ten points
each. Three soldiers fire a volley of bullets every two seconds, and every
bullet that reaches the emu costs one life. Four decoy emus wander about and
draw some of the fire. A tick every 50 ms moves the bullets, resolves
collisions, lets the decoys wander, and then decides whether the match is won
(20 crops destroyed) or lost (no lives left).

All of this lives in one mutable record built by `emuGame()` in `js/game.js`.
Here it is the class `EmuWar.EmuGame`. Its fields are the record's counters,
the player, and the crop, soldier, bullet and decoy arrays, held as sequences
that the methods reassign. Two flags stand for the two interval timers. The
pure rules sit in separate modules:

- `Geometry`: points and the proximity test.
- `Seqs`: order-keeping filtering, the shape of `Array.prototype.filter`.
- `Entities`: the records.
- `Setup`: the starting population.
- `Motion`: bullet flight and decoy wandering.
- `Combat`: volleys.
- `Collisions`: trampling and hits.

Each loop of the source is a method with a `while` or `for` loop. The method is
proved against the function of the matching module, and that function's
properties are proved as lemmas.

Every random draw is a parameter:

- `CropRoll` holds the two jitter draws for one crop.
- `EmuRoll` holds the move-or-not draw and the cosine and sine of the heading.
- `Shot` holds the target index, the square-root distance and the time-stamp id.

The class invariant `EmuGame.Valid` holds after every public operation:

- there are 20 numbered crops;
- the score is ten times the destroyed count, and that count is the number of destroyed crops;
- lives never exceed 3;
- decoys stay in their pen and bullets stay in the arena;
- both timers run exactly while a match is being played;
- a won match has 20 crops down and a lost one has no lives left.

The game cannot be won: this is a defect of the program. The rightmost column
of crops (ids 4, 9, 14, 19) is placed at x ≥ 800 (js/game.js:115). The player's
corner never gets past x = 760, because it moves in steps of 5 and the guard is
x < 760 (js/game.js:281). A crop is only trampled within 30 pixels
(js/game.js:350), so those four crops always stand. `EmuGame.VictoryOutOfReach`
proves the consequence: at most 16 crops are ever destroyed, the score stays at
or below 160, and the victory screen is never reached, although `updateGame`
waits for 20 destroyed crops (js/game.js:214).

Two behaviours of the code are kept as written:

- Lives are not clamped at zero. Several hits in one tick take them below
  zero, and only the `lives <= 0` test ends the match.
- `setupGame` leaves the player's facing and animation flag as they were.

## Model

| member | source | states |
|---|---|---|
| Geometry.SqDist | js/game.js:384-386 | the squared distance under the square root is never negative |
| Geometry.CollidingIffCloserThan | js/game.js:383-388 | for the true distance `d`, the squared test holds exactly when `d < threshold`, a strict comparison (both directions); the default threshold is 25 |
| Geometry.CollidingIsSymmetric | js/game.js:383-388 | swapping the two objects does not change the answer |
| Geometry.IsColliding | js/game.js:383-388 | no contract of its own; characterised by `Geometry.CollidingIffCloserThan` (strict distance test, default threshold 25) and `Geometry.CollidingIsSymmetric` |
| Geometry.ApartHorizontallyNeverCollide | js/game.js:383-388 | two points at least `threshold` apart along x never collide |
| Seqs.Filter | js/game.js:231 | the filtered sequence is no longer than its input, and every element it keeps is in the input and passes the test |
| Seqs.Rejected | js/game.js:358-371 | the number of dropped elements is at most the input length |
| Seqs.FilterSnoc | js/game.js:231 | one more input element is either appended to the result or counted as rejected |
| Seqs.FilterMembership | js/game.js:231 | an element of the input is in the result exactly when it passes the test |
| Seqs.FilterLength | js/game.js:231 | kept plus rejected equals the input length |
| Seqs.FilterIsSubsequence | js/game.js:231 | the kept elements keep their relative order |
| Seqs.FilterKeepingAll | js/game.js:231 | when every element passes, nothing is dropped |
| Seqs.FilterKeepingNone | js/game.js:231 | when no element passes, the result is empty and everything is rejected |
| Setup.CropAt | js/game.js:112-118 | no contract of its own; characterised by `Setup.InitialCropsLayout` |
| Setup.InitialCrops | js/game.js:110-119 | no contract of its own; characterised by `Setup.InitialCropsLayout` |
| Setup.InitialSoldiers | js/game.js:122-126 | no contract of its own; the three fixed soldiers, characterised by `Setup.SoldierMuzzlesInArena` |
| Setup.InitialEmus | js/game.js:129-134 | no contract of its own; the four fixed decoys, which `EmuWar.EmuGame.SetupGame` installs and `EmuWar.EmuGame.SetupIsValid` shows to be in their pen |
| Setup.InitialCropsLayout | js/game.js:110-119 | with draws in [0, 1), a fresh field has crops 0..19, none destroyed, each inside its 50 × 30 jitter cell of the 150 × 80 grid offset by (200, 50); the fifth column lies at x ≥ 800 |
| Setup.SoldierMuzzlesInArena | js/game.js:122-126 | every soldier's muzzle point (its corner plus 15, 15) lies inside the arena |
| Motion.AdvanceBullets | js/game.js:230-240 | no contract of its own; characterised by `Motion.AdvanceBulletsProperties` |
| Motion.AdvanceBulletsSnoc | js/game.js:231-239 | one more bullet adds at most that bullet, advanced by its velocity, at the end |
| Motion.AdvanceBulletsProperties | js/game.js:230-240 | after a tick there are no more bullets than before; every survivor is in [0,800]×[0,350]; survivors are advanced by exactly (vx, vy) and keep their order; a bullet survives exactly when its advanced position is inside the arena |
| Motion.Clamp | js/game.js:410-411 | `max(0, min(hi, v))` lies in [0, hi]; it is `v` inside the range, 0 below it and `hi` above it |
| Motion.Wander | js/game.js:399-413 | a decoy keeps its id; it is unchanged unless the draw is below 0.1; a decoy that moves ends in [0,770]×[0,320]; a decoy in that pen stays in it |
| Motion.WanderAll | js/game.js:398-414 | no contract of its own; characterised by `Motion.WanderAllProperties` and, per decoy, `Motion.Wander` |
| Motion.WanderAllProperties | js/game.js:398-414 | the decoy count and ids are kept; the pen is preserved; a step that stays in the pen moves the decoy by exactly 2 × (cos, sin) |
| Combat.Targets | js/game.js:315 | the candidate targets are the player followed by the decoys, in order |
| Combat.Aim | js/game.js:319-335 | no contract of its own; characterised by `Combat.AimSpeed` (speed 3 towards the target) and `Combat.VolleyStartsAtMuzzles` (start at the muzzle) |
| Combat.AimSpeed | js/game.js:319-326 | given the true distance, the velocity has length 3 and points along the vector from the soldier to its target |
| Combat.Volley | js/game.js:313-336 | a volley holds at most one bullet per soldier |
| Combat.VolleySnoc | js/game.js:313-336 | one more soldier adds only its own aimed bullet, at the end, or nothing if it stands on its target |
| Combat.VolleyOnePerSoldier | js/game.js:313-336 | with no soldier on its target, a volley has exactly one bullet per soldier, the k-th aimed by soldier k at its chosen target |
| Combat.VolleyStartsAtMuzzles | js/game.js:329-335 | every bullet of a volley starts at some soldier's muzzle (its x + 15, its y + 15), so inside the arena when the muzzles are |
| Collisions.Trample | js/game.js:350-354 | a crop keeps its id and position; a destroyed crop stays destroyed; it is destroyed afterwards exactly when it already was or the player is within 30 |
| Collisions.TrampleAll | js/game.js:349-355 | no contract of its own; characterised per crop by `Collisions.Trample` and as a whole by `Collisions.TrampleAllCount` |
| Collisions.DestroyedCount | js/game.js:352 | the destroyed count never exceeds the number of crops |
| Collisions.NewlyTrampled | js/game.js:349-355 | the number of crops trampled in one pass never exceeds the number of crops |
| Collisions.NoneDestroyed | js/game.js:117 | a field with no destroyed crop counts zero, matching the counter reset at js/game.js:140 |
| Collisions.NewlyTrampledSnoc | js/game.js:349-355 | one more crop adds one to the pass's count exactly when it is standing and within reach |
| Collisions.TrampleAllCount | js/game.js:349-355 | the pass keeps the crop count, and the destroyed count grows by exactly the number of standing crops within reach |
| Collisions.FarCropSurvives | js/game.js:350 | a crop 30 or more pixels to the right of the player is left as it is |
| Collisions.StandingColumnCapsCount | js/game.js:111-118 | if every fifth crop stands, at most four in five are destroyed |
| Collisions.TrampleKeepsFieldShape | js/game.js:349-355 | for a player left of x = 765, the pass keeps ids, keeps the rightmost column standing, and adds the newly trampled crops to the count |
| Collisions.Surviving | js/game.js:358-371 | no contract of its own; characterised by `Collisions.SurvivingProperties` |
| Collisions.HitCount | js/game.js:358-371 | no contract of its own; characterised by `Collisions.SurvivingProperties` and `Collisions.CrowdCostsOneLifeEach` |
| Collisions.SurvivingSnoc | js/game.js:358-371 | one more bullet is either kept at the end or counted as one hit |
| Collisions.SurvivingProperties | js/game.js:358-371 | the bullet pass removes exactly the bullets within 20 of the player, keeps the rest in order, and the removed count is the hit count |
| Collisions.CrowdCostsOneLifeEach | js/game.js:358-371 | k bullets all on the player are all removed and count k hits, however few lives remain |
| Collisions.NoHitKeepsAll | js/game.js:358-371 | with no bullet on the player, the pass keeps every bullet and counts no hit |
| EmuWar.EmuGame.constructor | js/game.js:25-102 | a new game object is on the instructions screen with timers off and the player at (100, 150) facing right; `init` has already built a fresh field, and the invariant holds |
| EmuWar.EmuGame.SetupIsValid | js/game.js:108-145 | a freshly set-up field satisfies the class invariant |
| EmuWar.EmuGame.SetupGame | js/game.js:108-145 | after setup: crops from the draws (ids 0..19, none destroyed), the 3 soldiers and 4 decoys at their fixed spots, no bullets, score 0, lives 3, counter 0, player at (100, 150) with facing and animation flag unchanged; the result depends only on the draws and the untouched fields, so running it twice gives the same state |
| EmuWar.EmuGame.StartGame | js/game.js:155-159 | starting gives a playing phase, a fresh field and both timers armed, and keeps the invariant |
| EmuWar.EmuGame.StartGameLoop | js/game.js:165-175 | both timers are armed |
| EmuWar.EmuGame.StopGameLoop | js/game.js:181-190 | both timers are disarmed |
| EmuWar.EmuGame.UpdateGame | js/game.js:200-224 | outside a match nothing changes; in a match the crops, counter, score, bullets, lives, player and decoys are exactly one bullet step, then crop pass, then bullet pass, then wander; the phase becomes gameOver when lives ≤ 0, else victory when 20 crops are down; timers run exactly while playing; the invariant is kept |
| EmuWar.EmuGame.EndMatchIfOver | js/game.js:213-223 | gameOver when lives ≤ 0 (checked second, so it wins), else victory when 20 or more crops are down, else still playing; the timers stop with either ending |
| EmuWar.EmuGame.UpdateBullets | js/game.js:230-240 | the bullets become the advanced in-arena bullets, and the invariant is kept |
| EmuWar.EmuGame.FlyEachBullet | js/game.js:231-239 | the loop leaves exactly the advanced bullets that are inside the arena |
| EmuWar.EmuGame.HandleKeyPress | js/game.js:252-299 | nothing changes outside a match or for a non-arrow key; Up moves only if y > 0, Down only if y < 310, Left only if x > 0 (facing left), Right only if x < 760 (facing right); each move is by the speed along one axis with the other unchanged and sets the animation flag; the result says whether it moved |
| EmuWar.EmuGame.EndAnimation | js/game.js:293-295 | the delayed callback clears the animation flag and changes nothing else |
| EmuWar.EmuGame.ShootBullets | js/game.js:309-337 | outside a match nothing changes; in a match the volley is appended after the bullets in flight, which are untouched; bullets stay in the arena |
| EmuWar.EmuGame.FireVolley | js/game.js:313-336 | the loop appends exactly the volley to the bullets |
| EmuWar.EmuGame.CheckCollisions | js/game.js:347-372 | the crop pass, then the bullet pass with the player's position as it was: crops trampled, counter and score raised by the newly trampled, bullets on the player removed, lives lowered by the hits (possibly below zero), the animation flag set on any hit; the invariant is kept |
| EmuWar.EmuGame.TrampleCrops | js/game.js:349-355 | the crop pass tramples exactly the standing crops within 30 and raises the counter by their number and the score by ten times it, keeping score = 10 × destroyed crops |
| EmuWar.EmuGame.TrampleEachCrop | js/game.js:349-355 | the loop leaves the trampled field and the counter and score raised by the newly trampled |
| EmuWar.EmuGame.TakeBulletHits | js/game.js:358-371 | the bullet pass removes exactly the bullets within 20, lowers lives by their number and sets the animation flag if any hit; the invariant is kept |
| EmuWar.EmuGame.RemoveHits | js/game.js:358-371 | the loop keeps the missing bullets in order and takes one life per hit |
| EmuWar.EmuGame.MoveOtherEmus | js/game.js:398-414 | each decoy wanders on its own draws; the count is kept and the decoys stay in their pen |
| EmuWar.EmuGame.ResetGame | js/game.js:424-428 | the timers stop, the phase is instructions and the field is fresh; the invariant is kept |
| EmuWar.EmuGame.VictoryOutOfReach | js/game.js:111-118 | in any reachable state at most 16 crops are destroyed, the score is at most 160, and the phase is never victory |

## Left out

- Real timers are out. `setInterval` and `setTimeout` are flags, and the animation callbacks are the method `EndAnimation`. Time and interleaving are not modelled.
- Calling `startGame` while a match runs is not modelled faithfully. The source would arm a second pair of intervals and leak the first; here the flags are simply set again.
- `Math.random`, `Date.now`, `Math.cos`, `Math.sin` and `Math.sqrt` are outside the model. Their results are inputs. The cosine and sine of a heading are not constrained to the unit circle. A distance is required to be the true distance on every volley the game fires (`EmuWar.EmuGame.ShootBullets` requires `Aimed` while playing) and in `Combat.AimSpeed`; `Combat.Volley` itself accepts any distance.
- Floating point is modelled as exact reals. Rounding, NaN and infinities are not modelled.
- Combat.Volley: a soldier standing exactly on its target fires nothing. The source divides by a zero distance there and pushes a bullet with a NaN velocity, which no arena test ever removes.
- EmuWar.EmuGame.ShootBullets: same zero-distance skip as `Combat.Volley`.
- `event.preventDefault()` is represented only by the `moved` result of `HandleKeyPress`.
- The key event is reduced to its key string.
- Alpine.js reactivity and rendering are out.
- js/main.js is not part of this model. It holds page navigation, scrolling and accessibility wiring.
- Bullets are compared by value, not by object identity. The `updateBullets` filter callback moves the bullet objects it tests in place (js/game.js:233-234); here the advanced bullet is a new value.
