/** Collision resolution: the player tramples crops and is hit by bullets. */
module Collisions {
  import opened Geometry
  import opened Seqs
  import opened Entities

  /** How close the player must come to a crop to trample it. */
  const CropReach: real := 30.0
  /** How close a bullet must come to the player to hit. */
  const BulletReach: real := 20.0
  /** Points scored per trampled crop. */
  const CropPoints: int := 10

  // ---------------------------------------------------------------- crops

  /** A crop after the player at `p` has passed: trampled if standing and within reach. */
  function Trample(c: Crop, p: Point): (r: Crop)
    ensures r.id == c.id && r.x == c.x && r.y == c.y
    ensures c.destroyed ==> r.destroyed
    ensures r.destroyed <==> c.destroyed || IsColliding(p, c.Pos(), CropReach)
  {
    if !c.destroyed && IsColliding(p, c.Pos(), CropReach) then c.(destroyed := true) else c
  }

  /** Every crop after the player at `p` has passed. */
  function TrampleAll(cs: seq<Crop>, p: Point): seq<Crop> {
    seq(|cs|, i requires 0 <= i < |cs| => Trample(cs[i], p))
  }

  /** How many crops are destroyed. */
  function DestroyedCount(cs: seq<Crop>): (n: nat)
    ensures n <= |cs|
  {
    if cs == [] then 0
    else DestroyedCount(cs[..|cs| - 1]) + (if cs[|cs| - 1].destroyed then 1 else 0)
  }

  /** How many standing crops lie within the player's reach. */
  function NewlyTrampled(cs: seq<Crop>, p: Point): (n: nat)
    ensures n <= |cs|
  {
    if cs == [] then 0
    else
      var c := cs[|cs| - 1];
      NewlyTrampled(cs[..|cs| - 1], p) + (if !c.destroyed && IsColliding(p, c.Pos(), CropReach) then 1 else 0)
  }

  /** A field with nothing trampled counts zero. */
  lemma {:induction false} NoneDestroyed(cs: seq<Crop>)
    requires forall i | 0 <= i < |cs| :: !cs[i].destroyed
    ensures DestroyedCount(cs) == 0
  {
    if cs != [] {
      NoneDestroyed(cs[..|cs| - 1]);
    }
  }

  /** One more crop in the input contributes to the newly-trampled count on its own. */
  lemma NewlyTrampledSnoc(cs: seq<Crop>, c: Crop, p: Point)
    ensures NewlyTrampled(cs + [c], p)
         == NewlyTrampled(cs, p) + (if !c.destroyed && IsColliding(p, c.Pos(), CropReach) then 1 else 0)
  {
    assert (cs + [c])[..|cs|] == cs;
  }

  /**
   * Trampling keeps every crop in place and destroyed crops destroyed, and
   * the destroyed count grows by exactly the number of standing crops in reach.
   */
  lemma {:induction false} TrampleAllCount(cs: seq<Crop>, p: Point)
    ensures |TrampleAll(cs, p)| == |cs|
    ensures DestroyedCount(TrampleAll(cs, p)) == DestroyedCount(cs) + NewlyTrampled(cs, p)
  {
    if cs != [] {
      var n := |cs| - 1;
      TrampleAllCount(cs[..n], p);
      assert TrampleAll(cs, p)[..n] == TrampleAll(cs[..n], p);
    }
  }

  /** A crop at least the reach to the right of the player cannot be trampled. */
  lemma FarCropSurvives(c: Crop, p: Point)
    requires p.x + CropReach <= c.x
    ensures Trample(c, p) == c
  {
    ApartHorizontallyNeverCollide(p, c.Pos(), CropReach);
  }

  /**
   * If every fifth crop (ids 4, 9, 14, ...) is still standing, at most four
   * crops in five are destroyed.
   */
  lemma {:induction false} StandingColumnCapsCount(cs: seq<Crop>)
    requires forall i | 0 <= i < |cs| && i % 5 == 4 :: !cs[i].destroyed
    ensures DestroyedCount(cs) <= |cs| - |cs| / 5
  {
    if cs != [] {
      var n := |cs| - 1;
      StandingColumnCapsCount(cs[..n]);
    }
  }

  /**
   * The field invariant survives a crop pass by a player left of `PlayerReachX` (765):
   * ids and positions stay, the rightmost column (at x >= 800) stays standing,
   * and the destroyed count grows by the newly trampled crops.
   */
  lemma TrampleKeepsFieldShape(cs: seq<Crop>, p: Point)
    requires p.x < PlayerReachX
    requires forall i | 0 <= i < |cs| && i % 5 == 4 :: cs[i].x >= ArenaWidth && !cs[i].destroyed
    ensures |TrampleAll(cs, p)| == |cs|
    ensures forall i | 0 <= i < |cs| :: TrampleAll(cs, p)[i].id == cs[i].id
    ensures forall i | 0 <= i < |cs| && i % 5 == 4 ::
      TrampleAll(cs, p)[i].x >= ArenaWidth && !TrampleAll(cs, p)[i].destroyed
    ensures DestroyedCount(TrampleAll(cs, p)) == DestroyedCount(cs) + NewlyTrampled(cs, p)
  {
    TrampleAllCount(cs, p);
    forall i | 0 <= i < |cs| && i % 5 == 4
      ensures TrampleAll(cs, p)[i] == cs[i]
    {
      FarCropSurvives(cs[i], p);
    }
  }

  // ---------------------------------------------------------------- bullets

  /** The test for a bullet that misses the player at `p`. */
  function Misses(p: Point): Bullet -> bool {
    (b: Bullet) => !IsColliding(p, b.Pos(), BulletReach)
  }

  /** The bullets left after those hitting the player at `p` are removed. */
  function Surviving(bs: seq<Bullet>, p: Point): seq<Bullet> {
    Filter(bs, Misses(p))
  }

  /** How many bullets hit the player at `p`. */
  function HitCount(bs: seq<Bullet>, p: Point): nat {
    Rejected(bs, Misses(p))
  }

  /** One more bullet is either kept at the end or counted as a hit. */
  lemma SurvivingSnoc(bs: seq<Bullet>, b: Bullet, p: Point)
    ensures Surviving(bs + [b], p)
         == Surviving(bs, p) + (if IsColliding(p, b.Pos(), BulletReach) then [] else [b])
    ensures HitCount(bs + [b], p)
         == HitCount(bs, p) + (if IsColliding(p, b.Pos(), BulletReach) then 1 else 0)
  {
    FilterSnoc(bs, b, Misses(p));
  }

  /**
   * The bullet pass removes exactly the bullets within reach of the player,
   * keeps the others in order, and the number removed is the hit count.
   */
  lemma SurvivingProperties(bs: seq<Bullet>, p: Point)
    ensures |Surviving(bs, p)| + HitCount(bs, p) == |bs|
    ensures IsSubsequence(Surviving(bs, p), bs)
    ensures forall b | b in bs :: b in Surviving(bs, p) <==> !IsColliding(p, b.Pos(), BulletReach)
  {
    FilterLength(bs, Misses(p));
    FilterIsSubsequence(bs, Misses(p));
    forall b | b in bs
      ensures b in Surviving(bs, p) <==> !IsColliding(p, b.Pos(), BulletReach)
    {
      FilterMembership(bs, Misses(p), b);
    }
  }

  /**
   * Every bullet on the player counts as its own hit, so a crowd of k bullets
   * costs k lives in one tick, however few lives remain.
   */
  lemma CrowdCostsOneLifeEach(bs: seq<Bullet>, p: Point)
    requires forall i | 0 <= i < |bs| :: IsColliding(p, bs[i].Pos(), BulletReach)
    ensures HitCount(bs, p) == |bs| && Surviving(bs, p) == []
  {
    FilterKeepingNone(bs, Misses(p));
  }

  /** With no bullet on the player, the bullet pass changes nothing. */
  lemma NoHitKeepsAll(bs: seq<Bullet>, p: Point)
    requires forall i | 0 <= i < |bs| :: !IsColliding(p, bs[i].Pos(), BulletReach)
    ensures HitCount(bs, p) == 0 && Surviving(bs, p) == bs
  {
    FilterKeepingAll(bs, Misses(p));
  }
}
