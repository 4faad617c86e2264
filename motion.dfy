/** Per-tick motion: bullets fly one Euler step, decoy emus wander now and then. */
module Motion {
  import opened Seqs
  import opened Entities

  // ---------------------------------------------------------------- bullets

  /** A bullet after one tick: its position advanced by its velocity. */
  function Advance(b: Bullet): Bullet {
    b.(x := b.x + b.vx, y := b.y + b.vy)
  }

  /** A bullet still inside the arena; the others are dropped. */
  predicate InFlight(b: Bullet) {
    InArena(b.Pos())
  }

  /** Every bullet advanced by one tick, none dropped yet. */
  function Moved(bs: seq<Bullet>): seq<Bullet> {
    seq(|bs|, i requires 0 <= i < |bs| => Advance(bs[i]))
  }

  /** The bullets after one tick of motion: advanced, and those that left the arena dropped. */
  function AdvanceBullets(bs: seq<Bullet>): seq<Bullet> {
    Filter(Moved(bs), InFlight)
  }

  /** One more bullet in the input adds at most that bullet, advanced, at the end. */
  lemma AdvanceBulletsSnoc(bs: seq<Bullet>, b: Bullet)
    ensures AdvanceBullets(bs + [b])
         == AdvanceBullets(bs) + (if InFlight(Advance(b)) then [Advance(b)] else [])
  {
    assert Moved(bs + [b]) == Moved(bs) + [Advance(b)];
    FilterSnoc(Moved(bs), Advance(b), InFlight);
  }

  /**
   * One tick of bullet motion never adds bullets, leaves only bullets inside
   * the arena, keeps the survivors in their order, and keeps exactly those
   * bullets whose advanced position is inside the arena.
   */
  lemma AdvanceBulletsProperties(bs: seq<Bullet>)
    ensures |AdvanceBullets(bs)| <= |bs|
    ensures forall b | b in AdvanceBullets(bs) :: InArena(b.Pos())
    ensures IsSubsequence(AdvanceBullets(bs), Moved(bs))
    ensures forall i | 0 <= i < |bs| ::
      Advance(bs[i]) in AdvanceBullets(bs) <==> InArena(Advance(bs[i]).Pos())
  {
    FilterIsSubsequence(Moved(bs), InFlight);
    forall i | 0 <= i < |bs|
      ensures Advance(bs[i]) in AdvanceBullets(bs) <==> InArena(Advance(bs[i]).Pos())
    {
      assert Moved(bs)[i] == Advance(bs[i]);
      FilterMembership(Moved(bs), InFlight, Advance(bs[i]));
    }
  }

  // ---------------------------------------------------------------- decoys

  /** The chance per tick that a decoy takes a step. */
  const WanderChance: real := 0.1
  /** The length of a decoy's step, in pixels. */
  const EmuStep: real := 2.0

  /**
   * The random outcomes for one decoy in one tick: the draw compared with the
   * chance, and the cosine and sine of the random heading.
   */
  datatype EmuRoll = EmuRoll(chance: real, cos: real, sin: real)

  /** The part of the arena a decoy's top-left corner is kept in. */
  predicate InPen(e: Emu) {
    0.0 <= e.x <= ArenaWidth - 30.0 && 0.0 <= e.y <= ArenaHeight - 30.0
  }

  /** `Math.max(0, Math.min(hi, v))`. */
  function Clamp(v: real, hi: real): (r: real)
    requires 0.0 <= hi
    ensures 0.0 <= r <= hi
    ensures 0.0 <= v <= hi ==> r == v
    ensures v < 0.0 ==> r == 0.0
    ensures hi < v ==> r == hi
  {
    var m := if hi < v then hi else v;
    if 0.0 < m then m else 0.0
  }

  /** One decoy after one tick. */
  function Wander(e: Emu, roll: EmuRoll): (r: Emu)
    ensures r.id == e.id
    ensures roll.chance >= WanderChance ==> r == e
    ensures roll.chance < WanderChance ==> InPen(r)
    ensures InPen(e) ==> InPen(r)
  {
    if roll.chance < WanderChance then
      e.(x := Clamp(e.x + roll.cos * EmuStep, ArenaWidth - 30.0),
         y := Clamp(e.y + roll.sin * EmuStep, ArenaHeight - 30.0))
    else e
  }

  /** Every decoy after one tick, decoy `i` driven by roll `i`. */
  function WanderAll(es: seq<Emu>, rolls: seq<EmuRoll>): seq<Emu>
    requires |rolls| == |es|
  {
    seq(|es|, i requires 0 <= i < |es| => Wander(es[i], rolls[i]))
  }

  /**
   * Wandering keeps the number of decoys and their ids, and a step that stays
   * inside the pen moves the decoy by exactly the step.
   */
  lemma WanderAllProperties(es: seq<Emu>, rolls: seq<EmuRoll>)
    requires |rolls| == |es|
    ensures |WanderAll(es, rolls)| == |es|
    ensures forall i | 0 <= i < |es| :: WanderAll(es, rolls)[i].id == es[i].id
    ensures (forall e | e in es :: InPen(e)) ==> forall e | e in WanderAll(es, rolls) :: InPen(e)
    ensures forall i | 0 <= i < |es| && rolls[i].chance < WanderChance ::
      var stepped := Emu(es[i].id, es[i].x + rolls[i].cos * EmuStep, es[i].y + rolls[i].sin * EmuStep);
      InPen(stepped) ==> WanderAll(es, rolls)[i] == stepped
  {
    if forall e | e in es :: InPen(e) {
      forall e | e in WanderAll(es, rolls) ensures InPen(e) {
        var i :| 0 <= i < |es| && WanderAll(es, rolls)[i] == e;
        assert es[i] in es;
      }
    }
  }
}
