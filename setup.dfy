/** The population of a fresh match: 20 crops, 3 soldiers, 4 decoy emus. */
module Setup {
  import opened Geometry
  import opened Entities

  const CropCount: nat := 20
  const GridColumns: nat := 5

  /** Where the player starts each match. */
  const StartX: real := 100.0
  const StartY: real := 150.0

  /** The two `Math.random()` draws that jitter one crop: the horizontal one, then the vertical one. */
  datatype CropRoll = CropRoll(rx: real, ry: real)

  /** What `Math.random()` guarantees: a value in [0, 1). */
  predicate IsUnitRoll(r: real) {
    0.0 <= r < 1.0
  }

  /** One pair of draws per crop, each from [0, 1). */
  predicate FairRolls(rolls: seq<CropRoll>) {
    && |rolls| == CropCount
    && forall k | 0 <= k < |rolls| :: IsUnitRoll(rolls[k].rx) && IsUnitRoll(rolls[k].ry)
  }

  /**
   * Crop `i` sits in column `i % 5` and row `i / 5` of a grid with a pitch of
   * 150 by 80 pixels, offset by (200, 50), jittered by up to 50 by 30 pixels.
   */
  function CropAt(i: nat, roll: CropRoll): Crop {
    Crop(i,
         (i % GridColumns) as real * 150.0 + 200.0 + roll.rx * 50.0,
         (i / GridColumns) as real * 80.0 + 50.0 + roll.ry * 30.0,
         false)
  }

  /** The crops of a fresh match, crop `i` built from the `i`-th pair of draws. */
  function InitialCrops(rolls: seq<CropRoll>): seq<Crop> {
    seq(|rolls|, i requires 0 <= i < |rolls| => CropAt(i, rolls[i]))
  }

  /** The soldiers, at the top-left corner, the top-right area and the bottom centre. */
  function InitialSoldiers(): seq<Soldier> {
    [Soldier(1, 50.0, 50.0), Soldier(2, 750.0, 100.0), Soldier(3, 400.0, 300.0)]
  }

  /** The decoy emus at their starting spots. */
  function InitialEmus(): seq<Emu> {
    [Emu(1, 200.0, 200.0), Emu(2, 600.0, 150.0), Emu(3, 300.0, 250.0), Emu(4, 500.0, 100.0)]
  }

  /**
   * The layout of a fresh field: crops numbered 0..19, none destroyed, each
   * inside its jitter cell; the rightmost column starts at the arena's right edge.
   */
  lemma InitialCropsLayout(rolls: seq<CropRoll>)
    requires FairRolls(rolls)
    ensures |InitialCrops(rolls)| == CropCount
    ensures forall i | 0 <= i < CropCount ::
      var c := InitialCrops(rolls)[i];
      && c.id == i
      && !c.destroyed
      && (i % 5) as real * 150.0 + 200.0 <= c.x < (i % 5) as real * 150.0 + 250.0
      && (i / 5) as real * 80.0 + 50.0 <= c.y < (i / 5) as real * 80.0 + 80.0
    ensures forall i | 0 <= i < CropCount && i % 5 == 4 :: InitialCrops(rolls)[i].x >= ArenaWidth
  {
    forall i | 0 <= i < CropCount
      ensures 0.0 <= rolls[i].rx * 50.0 < 50.0 && 0.0 <= rolls[i].ry * 30.0 < 30.0
    {
      assert IsUnitRoll(rolls[i].rx) && IsUnitRoll(rolls[i].ry);
    }
  }

  /** Every soldier's bullets appear inside the arena. */
  lemma SoldierMuzzlesInArena()
    ensures forall s | s in InitialSoldiers() :: InArena(Point(s.x + 15.0, s.y + 15.0))
  {
  }
}
