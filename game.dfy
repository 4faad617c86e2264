/** The emu-war game object: one mutable record driven by start, ticks, volleys, key presses and reset. */
module EmuWar {
  import opened Geometry
  import opened Entities
  import opened Setup
  import opened Motion
  import opened Combat
  import opened Collisions

  class EmuGame {
    var phase: Phase
    var score: int
    var lives: int
    var cropsDestroyed: int
    var player: Player
    var crops: seq<Crop>
    var soldiers: seq<Soldier>
    var bullets: seq<Bullet>
    var otherEmus: seq<Emu>
    /** Whether the 50 ms tick timer is armed. */
    var gameLoopRunning: bool
    /** Whether the 2 s volley timer is armed. */
    var bulletTimerRunning: bool

    /**
     * The invariant every public operation keeps: the field has 20 numbered
     * crops, the score is ten points per destroyed crop, the player stays left
     * of x = 765, so the rightmost crop column (at x >= 800) stays standing;
     * decoys stay in their pen, bullets in the arena, and both timers run
     * exactly while a match is being played.
     */
    ghost predicate Valid()
      reads this
    {
      && soldiers == InitialSoldiers()
      && |crops| == CropCount
      && (forall i | 0 <= i < |crops| :: crops[i].id == i)
      && (forall i | 0 <= i < |crops| && i % 5 == 4 :: crops[i].x >= ArenaWidth && !crops[i].destroyed)
      && cropsDestroyed == DestroyedCount(crops)
      && score == CropPoints * cropsDestroyed
      && lives <= 3
      && player.speed == PlayerSpeed
      && player.x < PlayerReachX
      && |otherEmus| == 4
      && (forall e | e in otherEmus :: InPen(e))
      && (forall b | b in bullets :: InArena(b.Pos()))
      && gameLoopRunning == (phase == Playing)
      && bulletTimerRunning == (phase == Playing)
      && (phase == Victory ==> cropsDestroyed >= CropCount)
      && (phase == GameOver ==> lives <= 0)
    }

    /** The entities and counters as the setup routine leaves them. */
    ghost predicate FreshMatch(cropRolls: seq<CropRoll>)
      reads this
    {
      && crops == InitialCrops(cropRolls)
      && soldiers == InitialSoldiers()
      && otherEmus == InitialEmus()
      && bullets == []
      && score == 0 && lives == 3 && cropsDestroyed == 0
      && player.x == StartX && player.y == StartY
    }

    /** Creating the game object, which runs the setup routine once. */
    constructor (cropRolls: seq<CropRoll>)
      requires FairRolls(cropRolls)
      ensures Valid() && FreshMatch(cropRolls)
      ensures phase == Instructions && !gameLoopRunning && !bulletTimerRunning
      ensures player == Player(StartX, StartY, Right, false, PlayerSpeed)
    {
      phase := Instructions;
      score, lives, cropsDestroyed := 0, 3, 0;
      player := Player(100.0, 150.0, Right, false, PlayerSpeed);
      crops, soldiers, bullets, otherEmus := [], [], [], [];
      gameLoopRunning, bulletTimerRunning := false, false;
      new;
      SetupGame(cropRolls);
      SetupIsValid(cropRolls);
    }

    /** A freshly set-up field satisfies the invariant, whatever the phase it was set up in. */
    lemma SetupIsValid(cropRolls: seq<CropRoll>)
      requires FairRolls(cropRolls) && FreshMatch(cropRolls)
      requires player.speed == PlayerSpeed
      requires gameLoopRunning == (phase == Playing) && bulletTimerRunning == (phase == Playing)
      requires phase == Instructions || phase == Playing
      ensures Valid()
    {
      InitialCropsLayout(cropRolls);
      NoneDestroyed(crops);
    }

    /**
     * Rebuilds the field: 20 jittered crops, the 3 soldiers, the 4 decoys, no
     * bullets, score 0, 3 lives, the player back at the start. The player's
     * facing and animation flag are left as they were.
     */
    method SetupGame(cropRolls: seq<CropRoll>)
      requires |cropRolls| == CropCount
      modifies this`crops, this`soldiers, this`otherEmus, this`bullets,
               this`score, this`lives, this`cropsDestroyed, this`player
      ensures FreshMatch(cropRolls)
      ensures player == old(player).(x := StartX, y := StartY)
    {
      crops := [];
      for i := 0 to CropCount
        invariant |crops| == i
        invariant forall k | 0 <= k < i :: crops[k] == CropAt(k, cropRolls[k])
        invariant player == old(player)
      {
        crops := crops + [CropAt(i, cropRolls[i])];
      }
      soldiers := InitialSoldiers();
      otherEmus := InitialEmus();
      bullets := [];
      score, lives, cropsDestroyed := 0, 3, 0;
      player := player.(x := StartX, y := StartY);
    }

    /** Starts a match: playing, a fresh field, both timers armed. */
    method StartGame(cropRolls: seq<CropRoll>)
      requires Valid() && FairRolls(cropRolls)
      modifies this
      ensures Valid() && FreshMatch(cropRolls)
      ensures phase == Playing && gameLoopRunning && bulletTimerRunning
      ensures player == old(player).(x := StartX, y := StartY)
    {
      phase := Playing;
      SetupGame(cropRolls);
      StartGameLoop();
      SetupIsValid(cropRolls);
    }

    /** Arms the tick timer and the volley timer. */
    method StartGameLoop()
      modifies this`gameLoopRunning, this`bulletTimerRunning
      ensures gameLoopRunning && bulletTimerRunning
    {
      gameLoopRunning := true;
      bulletTimerRunning := true;
    }

    /** Disarms whichever of the two timers is armed. */
    method StopGameLoop()
      modifies this`gameLoopRunning, this`bulletTimerRunning
      ensures !gameLoopRunning && !bulletTimerRunning
    {
      if gameLoopRunning {
        gameLoopRunning := false;
      }
      if bulletTimerRunning {
        bulletTimerRunning := false;
      }
    }

    /**
     * One tick: bullets fly, collisions resolve, decoys wander, then the end of
     * the match is decided, a lost match overriding a won one. Outside a match
     * it does nothing.
     */
    method UpdateGame(emuRolls: seq<EmuRoll>)
      requires Valid() && |emuRolls| == |otherEmus|
      modifies this
      ensures Valid()
      ensures gameLoopRunning == (phase == Playing) && bulletTimerRunning == (phase == Playing)
      ensures old(phase) != Playing ==> unchanged(this)
      ensures old(phase) == Playing ==>
        var pos := old(player).Pos();
        var flown := AdvanceBullets(old(bullets));
        && crops == TrampleAll(old(crops), pos)
        && cropsDestroyed == old(cropsDestroyed) + NewlyTrampled(old(crops), pos)
        && score == old(score) + CropPoints * NewlyTrampled(old(crops), pos)
        && bullets == Surviving(flown, pos)
        && lives == old(lives) - HitCount(flown, pos)
        && player == (if HitCount(flown, pos) > 0 then old(player).(moving := true) else old(player))
        && otherEmus == WanderAll(old(otherEmus), emuRolls)
        && soldiers == old(soldiers)
        && phase == (if lives <= 0 then GameOver
                     else if cropsDestroyed >= CropCount then Victory
                     else Playing)
    {
      if phase != Playing {
        return;
      }
      UpdateBullets();
      CheckCollisions();
      MoveOtherEmus(emuRolls);
      EndMatchIfOver();
    }

    /** The end of a tick: a won match stops, then a lost one, the loss winning if both hold. */
    method EndMatchIfOver()
      requires Valid() && phase == Playing
      modifies this`phase, this`gameLoopRunning, this`bulletTimerRunning
      ensures Valid()
      ensures phase == (if lives <= 0 then GameOver
                        else if cropsDestroyed >= CropCount then Victory
                        else Playing)
    {
      if cropsDestroyed >= CropCount {
        phase := Victory;
        StopGameLoop();
      }
      if lives <= 0 {
        phase := GameOver;
        StopGameLoop();
      }
    }

    /** Moves every bullet one step and drops those that left the arena. */
    method UpdateBullets()
      requires Valid()
      modifies this`bullets
      ensures Valid()
      ensures bullets == AdvanceBullets(old(bullets))
    {
      ghost var start := bullets;
      FlyEachBullet();
      AdvanceBulletsProperties(start);
    }

    /** The loop of the bullet motion, bullet by bullet in firing order. */
    method FlyEachBullet()
      modifies this`bullets
      ensures bullets == AdvanceBullets(old(bullets))
    {
      var kept: seq<Bullet> := [];
      var i := 0;
      while i < |bullets|
        invariant 0 <= i <= |bullets|
        invariant kept == AdvanceBullets(bullets[..i])
        invariant bullets == old(bullets)
      {
        var bullet := bullets[i];
        bullet := bullet.(x := bullet.x + bullet.vx, y := bullet.y + bullet.vy);
        AdvanceBulletsSnoc(bullets[..i], bullets[i]);
        assert bullets[..i + 1] == bullets[..i] + [bullets[i]];
        if !(bullet.x < 0.0 || bullet.x > ArenaWidth || bullet.y < 0.0 || bullet.y > ArenaHeight) {
          kept := kept + [bullet];
        }
        i := i + 1;
      }
      assert bullets[..i] == bullets;
      bullets := kept;
    }

    /**
     * Handles one key press. Outside a match, or for a key other than an
     * arrow, nothing changes. Otherwise the player steps by its speed along
     * one axis if the guard for that edge allows it; stepping sideways also
     * turns the player. The result says whether the player moved (and the
     * page's default scrolling was suppressed).
     */
    method HandleKeyPress(key: string) returns (moved: bool)
      requires Valid()
      modifies this`player
      ensures Valid()
      ensures phase != Playing ==> !moved
      ensures key !in {"ArrowUp", "ArrowDown", "ArrowLeft", "ArrowRight"} ==> !moved
      ensures !moved ==> player == old(player)
      ensures phase == Playing && key == "ArrowUp" ==>
        && moved == (old(player).y > 0.0)
        && (moved ==> player == old(player).(y := old(player).y - PlayerSpeed, moving := true))
      ensures phase == Playing && key == "ArrowDown" ==>
        && moved == (old(player).y < ArenaHeight - 40.0)
        && (moved ==> player == old(player).(y := old(player).y + PlayerSpeed, moving := true))
      ensures phase == Playing && key == "ArrowLeft" ==>
        && moved == (old(player).x > 0.0)
        && (moved ==> player == old(player).(x := old(player).x - PlayerSpeed, direction := Left, moving := true))
      ensures phase == Playing && key == "ArrowRight" ==>
        && moved == (old(player).x < ArenaWidth - 40.0)
        && (moved ==> player == old(player).(x := old(player).x + PlayerSpeed, direction := Right, moving := true))
    {
      moved := false;
      if phase != Playing {
        return;
      }
      if key == "ArrowUp" {
        if player.y > 0.0 {
          player := player.(y := player.y - player.speed);
          moved := true;
        }
      } else if key == "ArrowDown" {
        if player.y < ArenaHeight - 40.0 {
          player := player.(y := player.y + player.speed);
          moved := true;
        }
      } else if key == "ArrowLeft" {
        if player.x > 0.0 {
          player := player.(x := player.x - player.speed, direction := Left);
          moved := true;
        }
      } else if key == "ArrowRight" {
        if player.x < ArenaWidth - 40.0 {
          player := player.(x := player.x + player.speed, direction := Right);
          moved := true;
        }
      }
      if moved {
        player := player.(moving := true);
      }
    }

    /** The delayed callback that ends the walking or hit animation. */
    method EndAnimation()
      requires Valid()
      modifies this`player
      ensures Valid()
      ensures player == old(player).(moving := false)
    {
      player := player.(moving := false);
    }

    /**
     * One volley: during a match each soldier, in order, fires one bullet at
     * its chosen target, appended after the bullets already in flight. A
     * soldier standing exactly on its target fires nothing.
     */
    method ShootBullets(shots: seq<Shot>)
      requires Valid()
      requires phase == Playing ==> Aimed(soldiers, Targets(player, otherEmus), shots)
      modifies this`bullets
      ensures Valid()
      ensures phase != Playing ==> bullets == old(bullets)
      ensures phase == Playing ==>
        bullets == old(bullets) + Volley(soldiers, Targets(player, otherEmus), shots)
    {
      if phase != Playing {
        return;
      }
      var targets := Targets(player, otherEmus);
      FireVolley(targets, shots);
      SoldierMuzzlesInArena();
      VolleyStartsAtMuzzles(soldiers, targets, shots);
      assert forall b | b in bullets :: b in old(bullets) || b in Volley(soldiers, targets, shots);
    }

    /** The loop of a volley: soldier by soldier, the aimed bullet is pushed onto the bullets in flight. */
    method FireVolley(targets: seq<Point>, shots: seq<Shot>)
      requires ShotsFit(soldiers, targets, shots)
      modifies this`bullets
      ensures bullets == old(bullets) + Volley(soldiers, targets, shots)
    {
      for k := 0 to |soldiers|
        invariant bullets == old(bullets) + Volley(soldiers[..k], targets, shots[..k])
      {
        var soldier := soldiers[k];
        var target := targets[shots[k].target];
        assert ShotsFit(soldiers[..k], targets, shots[..k]);
        VolleySnoc(soldiers[..k], targets, shots[..k], soldier, shots[k]);
        assert soldiers[..k + 1] == soldiers[..k] + [soldier];
        assert shots[..k + 1] == shots[..k] + [shots[k]];
        var distance := shots[k].distance;
        if distance != 0.0 {
          var dx := target.x - soldier.x;
          var dy := target.y - soldier.y;
          var vx := (dx / distance) * BulletSpeed;
          var vy := (dy / distance) * BulletSpeed;
          bullets := bullets + [Bullet(shots[k].id, soldier.x + Muzzle, soldier.y + Muzzle, vx, vy)];
        }
      }
      assert soldiers[..|soldiers|] == soldiers && shots[..|shots|] == shots;
    }

    /**
     * Resolves the player's collisions: first every standing crop within reach
     * is trampled and scored, then every bullet on the player is removed at the
     * cost of one life each, which may take the lives below zero.
     */
    method CheckCollisions()
      requires Valid()
      modifies this`crops, this`cropsDestroyed, this`score, this`bullets, this`lives, this`player
      ensures Valid()
      ensures crops == TrampleAll(old(crops), old(player).Pos())
      ensures cropsDestroyed == old(cropsDestroyed) + NewlyTrampled(old(crops), old(player).Pos())
      ensures score == old(score) + CropPoints * NewlyTrampled(old(crops), old(player).Pos())
      ensures bullets == Surviving(old(bullets), old(player).Pos())
      ensures lives == old(lives) - HitCount(old(bullets), old(player).Pos())
      ensures player == if HitCount(old(bullets), old(player).Pos()) > 0
                        then old(player).(moving := true) else old(player)
    {
      TrampleCrops();
      TakeBulletHits();
    }

    /** The crop pass: every standing crop within reach of the player is destroyed and scored. */
    method TrampleCrops()
      requires Valid()
      modifies this`crops, this`cropsDestroyed, this`score
      ensures Valid()
      ensures crops == TrampleAll(old(crops), player.Pos())
      ensures cropsDestroyed == old(cropsDestroyed) + NewlyTrampled(old(crops), player.Pos())
      ensures score == old(score) + CropPoints * NewlyTrampled(old(crops), player.Pos())
    {
      ghost var start := crops;
      TrampleEachCrop();
      TrampleKeepsFieldShape(start, player.Pos());
    }

    /** The loop of the crop pass, crop by crop in field order. */
    method TrampleEachCrop()
      modifies this`crops, this`cropsDestroyed, this`score
      ensures crops == TrampleAll(old(crops), player.Pos())
      ensures cropsDestroyed == old(cropsDestroyed) + NewlyTrampled(old(crops), player.Pos())
      ensures score == old(score) + CropPoints * NewlyTrampled(old(crops), player.Pos())
    {
      var pos := player.Pos();
      ghost var start := crops;
      var i := 0;
      while i < |crops|
        invariant 0 <= i <= |crops| == |start|
        invariant forall k | 0 <= k < i :: crops[k] == Trample(start[k], pos)
        invariant forall k | i <= k < |crops| :: crops[k] == start[k]
        invariant cropsDestroyed == old(cropsDestroyed) + NewlyTrampled(start[..i], pos)
        invariant score == old(score) + CropPoints * NewlyTrampled(start[..i], pos)
      {
        var crop := crops[i];
        NewlyTrampledSnoc(start[..i], crop, pos);
        assert start[..i + 1] == start[..i] + [crop];
        if !crop.destroyed && IsColliding(pos, crop.Pos(), CropReach) {
          crops := crops[i := crop.(destroyed := true)];
          cropsDestroyed := cropsDestroyed + 1;
          score := score + 10;
        }
        i := i + 1;
      }
      assert start[..i] == start;
    }

    /** The bullet pass: every bullet on the player is removed and costs one life. */
    method TakeBulletHits()
      requires Valid()
      modifies this`bullets, this`lives, this`player
      ensures Valid()
      ensures bullets == Surviving(old(bullets), old(player).Pos())
      ensures lives == old(lives) - HitCount(old(bullets), old(player).Pos())
      ensures player == if HitCount(old(bullets), old(player).Pos()) > 0
                        then old(player).(moving := true) else old(player)
    {
      ghost var start := bullets;
      RemoveHits();
      SurvivingProperties(start, old(player).Pos());
    }

    /** The loop of the bullet pass, over the bullets as they stood before it. */
    method RemoveHits()
      modifies this`bullets, this`lives, this`player
      ensures bullets == Surviving(old(bullets), old(player).Pos())
      ensures lives == old(lives) - HitCount(old(bullets), old(player).Pos())
      ensures player == if HitCount(old(bullets), old(player).Pos()) > 0
                        then old(player).(moving := true) else old(player)
    {
      var pos := player.Pos();
      var kept: seq<Bullet> := [];
      var j := 0;
      while j < |bullets|
        invariant 0 <= j <= |bullets|
        invariant bullets == old(bullets)
        invariant kept == Surviving(bullets[..j], pos)
        invariant lives == old(lives) - HitCount(bullets[..j], pos)
        invariant player == if HitCount(bullets[..j], pos) > 0 then old(player).(moving := true) else old(player)
      {
        var bullet := bullets[j];
        SurvivingSnoc(bullets[..j], bullet, pos);
        assert bullets[..j + 1] == bullets[..j] + [bullet];
        if IsColliding(pos, bullet.Pos(), BulletReach) {
          lives := lives - 1;
          player := player.(moving := true);
        } else {
          kept := kept + [bullet];
        }
        j := j + 1;
      }
      assert bullets[..j] == bullets;
      bullets := kept;
    }

    /** Each decoy, on its roll, takes one step in a random heading and is clamped into its pen. */
    method MoveOtherEmus(emuRolls: seq<EmuRoll>)
      requires Valid() && |emuRolls| == |otherEmus|
      modifies this`otherEmus
      ensures Valid()
      ensures otherEmus == WanderAll(old(otherEmus), emuRolls)
    {
      for i := 0 to |otherEmus|
        invariant |otherEmus| == |old(otherEmus)|
        invariant forall k | 0 <= k < i :: otherEmus[k] == Wander(old(otherEmus)[k], emuRolls[k])
        invariant forall k | i <= k < |otherEmus| :: otherEmus[k] == old(otherEmus)[k]
      {
        var emu := otherEmus[i];
        if emuRolls[i].chance < WanderChance {
          var x := emu.x + emuRolls[i].cos * EmuStep;
          var y := emu.y + emuRolls[i].sin * EmuStep;
          otherEmus := otherEmus[i := emu.(x := Clamp(x, ArenaWidth - 30.0), y := Clamp(y, ArenaHeight - 30.0))];
        }
      }
      assert otherEmus == WanderAll(old(otherEmus), emuRolls);
      WanderAllProperties(old(otherEmus), emuRolls);
    }

    /** Back to the instructions screen with a fresh field and both timers stopped. */
    method ResetGame(cropRolls: seq<CropRoll>)
      requires Valid() && FairRolls(cropRolls)
      modifies this
      ensures Valid() && FreshMatch(cropRolls)
      ensures phase == Instructions && !gameLoopRunning && !bulletTimerRunning
      ensures player == old(player).(x := StartX, y := StartY)
    {
      StopGameLoop();
      phase := Instructions;
      SetupGame(cropRolls);
      SetupIsValid(cropRolls);
    }

    /**
     * The victory screen can never be reached: with the rightmost crop column
     * out of the player's reach, at most 16 of the 20 crops can be destroyed,
     * so the score never passes 160.
     */
    lemma VictoryOutOfReach()
      requires Valid()
      ensures cropsDestroyed <= CropCount - 4
      ensures 0 <= score <= CropPoints * (CropCount - 4)
      ensures phase != Victory
    {
      StandingColumnCapsCount(crops);
    }
  }
}
