/** Volleys: every soldier fires one bullet at a randomly chosen emu. */
module Combat {
  import opened Geometry
  import opened Entities

  /** Bullet speed in pixels per tick. */
  const BulletSpeed: real := 3.0
  /** Offset from a soldier's corner to where its bullets appear. */
  const Muzzle: real := 15.0

  /**
   * The outcomes one soldier's shot depends on: the index of the chosen
   * target, the distance to it (the square root taken by the game), and the
   * bullet's id (a time stamp plus a random fraction).
   */
  datatype Shot = Shot(target: nat, distance: real, id: real)

  /** What a soldier can aim at: the player first, then the decoy emus in order. */
  function Targets(p: Player, emus: seq<Emu>): (ts: seq<Point>)
    ensures |ts| == 1 + |emus|
    ensures ts[0] == p.Pos()
    ensures forall i | 0 <= i < |emus| :: ts[i + 1] == emus[i].Pos()
  {
    [p.Pos()] + seq(|emus|, i requires 0 <= i < |emus| => emus[i].Pos())
  }

  /** One shot per soldier, each naming an existing target. */
  predicate ShotsFit(soldiers: seq<Soldier>, targets: seq<Point>, shots: seq<Shot>) {
    && |shots| == |soldiers|
    && forall k | 0 <= k < |shots| :: shots[k].target < |targets|
  }

  /** As `ShotsFit`, and each shot carries the true distance from its soldier to its target. */
  ghost predicate Aimed(soldiers: seq<Soldier>, targets: seq<Point>, shots: seq<Shot>) {
    && ShotsFit(soldiers, targets, shots)
    && forall k | 0 <= k < |shots| ::
         IsDistance(shots[k].distance, targets[shots[k].target], soldiers[k].Pos())
  }

  /** The bullet a soldier fires at `target`, given the distance between them. */
  function Aim(s: Soldier, target: Point, distance: real, id: real): Bullet
    requires distance != 0.0
  {
    var dx := target.x - s.x;
    var dy := target.y - s.y;
    Bullet(id, s.x + Muzzle, s.y + Muzzle, (dx / distance) * BulletSpeed, (dy / distance) * BulletSpeed)
  }

  /** A fired bullet travels at exactly the bullet speed, straight towards its target. */
  lemma AimSpeed(s: Soldier, target: Point, distance: real, id: real)
    requires distance != 0.0 && IsDistance(distance, target, s.Pos())
    ensures var b := Aim(s, target, distance, id);
      && b.vx * b.vx + b.vy * b.vy == BulletSpeed * BulletSpeed
      && b.vx * (target.y - s.y) == b.vy * (target.x - s.x)
      && b.vx * (target.x - s.x) + b.vy * (target.y - s.y) >= 0.0
  {
    var dx, dy := target.x - s.x, target.y - s.y;
    var ux, uy := dx / distance, dy / distance;
    assert dx == ux * distance && dy == uy * distance;
    calc {
      (ux * ux + uy * uy) * (distance * distance);
    == (ux * distance) * (ux * distance) + (uy * distance) * (uy * distance);
    == dx * dx + dy * dy;
    == distance * distance;
    }
    assert ux * ux + uy * uy == 1.0;
    var b := Aim(s, target, distance, id);
    calc {
      b.vx * b.vx + b.vy * b.vy;
    == (ux * 3.0) * (ux * 3.0) + (uy * 3.0) * (uy * 3.0);
    == 9.0 * (ux * ux + uy * uy);
    }
    calc {
      b.vx * dy;
    == 3.0 * ux * (uy * distance);
    == 3.0 * uy * (ux * distance);
    == b.vy * dx;
    }
    calc {
      b.vx * dx + b.vy * dy;
    == 3.0 * ux * (ux * distance) + 3.0 * uy * (uy * distance);
    == 3.0 * distance * (ux * ux + uy * uy);
    }
  }

  /**
   * The bullets of one volley, in soldier order. A soldier standing exactly on
   * its target fires nothing: the game would divide by a zero distance there.
   */
  function Volley(soldiers: seq<Soldier>, targets: seq<Point>, shots: seq<Shot>): (r: seq<Bullet>)
    requires ShotsFit(soldiers, targets, shots)
    ensures |r| <= |soldiers|
    decreases |soldiers|
  {
    if soldiers == [] then []
    else
      var n := |soldiers| - 1;
      var earlier := Volley(soldiers[..n], targets, shots[..n]);
      if shots[n].distance == 0.0 then earlier
      else earlier + [Aim(soldiers[n], targets[shots[n].target], shots[n].distance, shots[n].id)]
  }

  /** One more soldier adds at most its own bullet, at the end. */
  lemma VolleySnoc(soldiers: seq<Soldier>, targets: seq<Point>, shots: seq<Shot>, s: Soldier, shot: Shot)
    requires ShotsFit(soldiers, targets, shots) && shot.target < |targets|
    ensures ShotsFit(soldiers + [s], targets, shots + [shot])
    ensures Volley(soldiers + [s], targets, shots + [shot])
         == Volley(soldiers, targets, shots)
            + (if shot.distance == 0.0 then [] else [Aim(s, targets[shot.target], shot.distance, shot.id)])
  {
    assert (soldiers + [s])[..|soldiers|] == soldiers;
    assert (shots + [shot])[..|shots|] == shots;
  }

  /**
   * When no soldier stands on its target, the volley holds exactly one bullet
   * per soldier, in soldier order, the k-th aimed from soldier k at its target.
   */
  lemma {:induction false} VolleyOnePerSoldier(soldiers: seq<Soldier>, targets: seq<Point>, shots: seq<Shot>)
    requires ShotsFit(soldiers, targets, shots)
    requires forall k | 0 <= k < |shots| :: shots[k].distance != 0.0
    ensures |Volley(soldiers, targets, shots)| == |soldiers|
    ensures forall k | 0 <= k < |soldiers| ::
      Volley(soldiers, targets, shots)[k]
        == Aim(soldiers[k], targets[shots[k].target], shots[k].distance, shots[k].id)
  {
    if soldiers != [] {
      var n := |soldiers| - 1;
      var earlier := Volley(soldiers[..n], targets, shots[..n]);
      VolleyOnePerSoldier(soldiers[..n], targets, shots[..n]);
      var last := Aim(soldiers[n], targets[shots[n].target], shots[n].distance, shots[n].id);
      assert Volley(soldiers, targets, shots) == earlier + [last];
      forall k | 0 <= k < n
        ensures Volley(soldiers, targets, shots)[k]
             == Aim(soldiers[k], targets[shots[k].target], shots[k].distance, shots[k].id)
      {
        assert Volley(soldiers, targets, shots)[k] == earlier[k];
        assert soldiers[..n][k] == soldiers[k] && shots[..n][k] == shots[k];
      }
    }
  }

  /**
   * Every bullet of a volley appears at some soldier's muzzle, its corner plus
   * (15, 15), so inside the arena when the muzzles are.
   */
  lemma {:induction false} VolleyStartsAtMuzzles(soldiers: seq<Soldier>, targets: seq<Point>, shots: seq<Shot>)
    requires ShotsFit(soldiers, targets, shots)
    requires forall s | s in soldiers :: InArena(Point(s.x + Muzzle, s.y + Muzzle))
    ensures forall b | b in Volley(soldiers, targets, shots) ::
      exists k | 0 <= k < |soldiers| :: b.x == soldiers[k].x + Muzzle && b.y == soldiers[k].y + Muzzle
    ensures forall b | b in Volley(soldiers, targets, shots) :: InArena(b.Pos())
  {
    if soldiers != [] {
      var n := |soldiers| - 1;
      var earlier := Volley(soldiers[..n], targets, shots[..n]);
      assert forall s | s in soldiers[..n] :: s in soldiers;
      VolleyStartsAtMuzzles(soldiers[..n], targets, shots[..n]);
      assert soldiers[n] in soldiers;
      forall b | b in Volley(soldiers, targets, shots)
        ensures exists k | 0 <= k < |soldiers| :: b.x == soldiers[k].x + Muzzle && b.y == soldiers[k].y + Muzzle
      {
        if b in earlier {
          var k :| 0 <= k < n && b.x == soldiers[..n][k].x + Muzzle && b.y == soldiers[..n][k].y + Muzzle;
          assert soldiers[..n][k] == soldiers[k];
        } else {
          assert b.x == soldiers[n].x + Muzzle && b.y == soldiers[n].y + Muzzle;
        }
      }
    }
  }
}
