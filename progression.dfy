/**
 * The experience curve and the level-up loop of the game server
 * (server/models/gameModel.js, getExpForLevel and addExpToPokemon).
 *
 * The two `Math.random()` draws made for every level reached are supplied as
 * sequences of unit reals: the k-th level reached uses `hpRolls[k]` and
 * `attackRolls[k]`.
 */
module Progression {
  import opened Random

  /** The level cap of every creature. */
  const MaxLevel := 100

  /** Experience needed to advance out of `level`. */
  function ExpForLevel(level: int): (r: nat)
    ensures r >= 100
  {
    if level <= 1 then 100 else 100 + (level - 1) * 15 + (level - 1) * (level - 1) * 2
  }

  /** The curve is strictly increasing from level 1 on. */
  lemma ExpForLevelIncreasing(a: int, b: int)
    requires 1 <= a < b
    ensures ExpForLevel(a) < ExpForLevel(b)
  {
    var x, y := a - 1, b - 1;
    assert y * y - x * x == (y - x) * (y + x);
    assert (y - x) * (y + x) >= 0;
  }

  /** Values at the first levels; level 5 needs 192, not the 232 of the sample table in gameModel.js. */
  lemma ExpForLevelSamples()
    ensures ExpForLevel(1) == 100 && ExpForLevel(2) == 117 && ExpForLevel(5) == 192
    ensures ExpForLevel(10) == 397 && ExpForLevel(0) == 100
  {
  }

  /** Max-HP growth on reaching `level`: a base of 4..8 plus one per ten levels. */
  function HpGain(level: int, roll: real): (g: int)
    requires IsUnit(roll)
    ensures 4 + level / 10 <= g <= 8 + level / 10
  {
    RandomBelow(roll, 5) + 4 + level / 10
  }

  /** Attack growth on reaching `level`: a base of 2..4 plus one per fifteen levels. */
  function AttackGain(level: int, roll: real): (g: int)
    requires IsUnit(roll)
    ensures 2 + level / 15 <= g <= 4 + level / 15
  {
    RandomBelow(roll, 3) + 2 + level / 15
  }

  predicate AllUnit(rolls: seq<real>) {
    forall i :: 0 <= i < |rolls| ==> IsUnit(rolls[i])
  }

  /** Enough draws for every level a creature at `level` can still reach. */
  predicate RollsCover(level: int, rolls: seq<real>) {
    AllUnit(rolls) && (level < MaxLevel ==> |rolls| >= MaxLevel - level)
  }

  /** Total max-HP growth over the `count` levels reached after `from`. */
  function HpTotal(from: int, count: nat, rolls: seq<real>): int
    requires count <= |rolls| && AllUnit(rolls)
  {
    if count == 0 then 0 else HpTotal(from, count - 1, rolls) + HpGain(from + count, rolls[count - 1])
  }

  /** Total attack growth over the `count` levels reached after `from`. */
  function AttackTotal(from: int, count: nat, rolls: seq<real>): int
    requires count <= |rolls| && AllUnit(rolls)
  {
    if count == 0 then 0 else AttackTotal(from, count - 1, rolls) + AttackGain(from + count, rolls[count - 1])
  }

  lemma MulMonotone(a: int, b: int, c: nat)
    requires a <= b
    ensures a * c <= b * c
  {
  }

  /** From level 0 on, levels reached after `from` each add 4 .. 8 + (from + count) / 10 max HP. */
  lemma {:induction false} HpTotalBounds(from: int, count: nat, rolls: seq<real>)
    requires from >= 0 && count <= |rolls| && AllUnit(rolls)
    ensures 4 * count <= HpTotal(from, count, rolls) <= (8 + (from + count) / 10) * count
  {
    if count > 0 {
      HpTotalBounds(from, count - 1, rolls);
      var top := 8 + (from + count) / 10;
      assert (from + count - 1) / 10 <= (from + count) / 10;
      MulMonotone(8 + (from + count - 1) / 10, top, count - 1);
      assert top * (count - 1) + top == top * count;
    }
  }

  /** From level 0 on, levels reached after `from` each add 2 .. 4 + (from + count) / 15 attack. */
  lemma {:induction false} AttackTotalBounds(from: int, count: nat, rolls: seq<real>)
    requires from >= 0 && count <= |rolls| && AllUnit(rolls)
    ensures 2 * count <= AttackTotal(from, count, rolls) <= (4 + (from + count) / 15) * count
  {
    if count > 0 {
      AttackTotalBounds(from, count - 1, rolls);
      var top := 4 + (from + count) / 15;
      assert (from + count - 1) / 15 <= (from + count) / 15;
      MulMonotone(4 + (from + count - 1) / 15, top, count - 1);
      assert top * (count - 1) + top == top * count;
    }
  }

  /**
   * Where the level-up loop stops: the (level, exp) reached by paying
   * `ExpForLevel(level)` for each level while the cap is not reached and the
   * experience suffices.
   */
  function Settle(level: int, exp: int): (res: (int, int))
    decreases MaxLevel - level
    ensures level <= res.0
    ensures level < MaxLevel ==> res.0 <= MaxLevel
    ensures level >= MaxLevel ==> res == (level, exp)
    ensures res.0 < MaxLevel ==> res.1 < ExpForLevel(res.0)
    ensures exp >= 0 ==> res.1 >= 0
  {
    if level < MaxLevel && exp >= ExpForLevel(level) then Settle(level + 1, exp - ExpForLevel(level))
    else (level, exp)
  }

  /** The experience needed to go from level `from` to level `to`. */
  function ExpBetween(from: int, to: int): int
    decreases to - from
  {
    if from >= to then 0 else ExpForLevel(from) + ExpBetween(from + 1, to)
  }

  /** Leveling spends exactly the thresholds of the levels passed, nothing is lost before the cap. */
  lemma {:induction false} SettleConservesExp(level: int, exp: int)
    ensures exp == Settle(level, exp).1 + ExpBetween(level, Settle(level, exp).0)
    decreases MaxLevel - level
  {
    if level < MaxLevel && exp >= ExpForLevel(level) {
      SettleConservesExp(level + 1, exp - ExpForLevel(level));
    }
  }

  /** A creature's progression attributes (a party row without identity or current HP). */
  datatype Stats = Stats(level: int, exp: int, maxHp: int, attack: int)

  /** What addExpToPokemon reports besides the new attributes. */
  datatype LevelUp = LevelUp(expGained: int, levelsGained: nat, hpGained: int, attackGained: int, after: Stats) {
    /** The leveledUp flag, which picks the level-up message over the plain experience one. */
    predicate LeveledUp() {
      levelsGained > 0
    }
  }

  /** The loop of addExpToPokemon: pays for one level at a time, growing max HP and attack on each. */
  method Climb(s: Stats, expGained: int, hpRolls: seq<real>, attackRolls: seq<real>)
      returns (level: int, exp: int, gained: nat, maxHp: int, attack: int)
    requires s.level < MaxLevel
    requires RollsCover(s.level, hpRolls) && RollsCover(s.level, attackRolls)
    ensures (level, exp) == Settle(s.level, s.exp + expGained)
    ensures gained == level - s.level && gained <= |hpRolls| && gained <= |attackRolls|
    ensures maxHp == s.maxHp + HpTotal(s.level, gained, hpRolls)
    ensures attack == s.attack + AttackTotal(s.level, gained, attackRolls)
  {
    exp := s.exp + expGained;
    level := s.level;
    maxHp := s.maxHp;
    attack := s.attack;
    gained := 0;
    while level < MaxLevel && exp >= ExpForLevel(level)
      invariant s.level <= level <= MaxLevel
      invariant gained == level - s.level
      invariant Settle(level, exp) == Settle(s.level, s.exp + expGained)
      invariant maxHp == s.maxHp + HpTotal(s.level, gained, hpRolls)
      invariant attack == s.attack + AttackTotal(s.level, gained, attackRolls)
      decreases MaxLevel - level
    {
      TotalsStep(s.level, gained, hpRolls, attackRolls);
      var hpStep := HpGain(level + 1, hpRolls[gained]);
      var attackStep := AttackGain(level + 1, attackRolls[gained]);
      exp := exp - ExpForLevel(level);
      level := level + 1;
      gained := gained + 1;
      maxHp := maxHp + hpStep;
      attack := attack + attackStep;
    }
  }

  /** One more level reached adds that level's growth to both totals. */
  lemma TotalsStep(from: int, count: nat, hpRolls: seq<real>, attackRolls: seq<real>)
    requires count < |hpRolls| && count < |attackRolls| && AllUnit(hpRolls) && AllUnit(attackRolls)
    ensures HpTotal(from, count + 1, hpRolls) == HpTotal(from, count, hpRolls) + HpGain(from + count + 1, hpRolls[count])
    ensures AttackTotal(from, count + 1, attackRolls) == AttackTotal(from, count, attackRolls) + AttackGain(from + count + 1, attackRolls[count])
  {
  }

  /**
   * The level-up loop of addExpToPokemon. At the cap nothing changes and zero
   * gains are reported. Otherwise the experience is added, levels are taken
   * while the cap is not reached and the experience suffices, each level adds
   * its HP and attack growth, and experience left at the cap is cleared.
   */
  method ApplyExperience(s: Stats, expGained: int, hpRolls: seq<real>, attackRolls: seq<real>) returns (r: LevelUp)
    requires RollsCover(s.level, hpRolls) && RollsCover(s.level, attackRolls)
    ensures s.level >= MaxLevel ==> r == LevelUp(0, 0, 0, 0, s)
    ensures s.level < MaxLevel ==>
      var (level, exp) := Settle(s.level, s.exp + expGained);
      && r.expGained == expGained
      && r.after.level == level
      && r.after.exp == (if level == MaxLevel then 0 else exp)
      && r.levelsGained == level - s.level
      && r.hpGained == HpTotal(s.level, r.levelsGained, hpRolls)
      && r.attackGained == AttackTotal(s.level, r.levelsGained, attackRolls)
      && r.after.maxHp == s.maxHp + r.hpGained
      && r.after.attack == s.attack + r.attackGained
    ensures s.level <= r.after.level
    ensures s.level < MaxLevel ==> r.after.level <= MaxLevel
    ensures s.level < MaxLevel && r.after.level < MaxLevel ==> r.after.exp < ExpForLevel(r.after.level)
    ensures s.level < MaxLevel && r.after.level == MaxLevel ==> r.after.exp == 0
    ensures r.LeveledUp() <==> s.level < r.after.level
    ensures r.LeveledUp() <==> s.level < MaxLevel && s.exp + expGained >= ExpForLevel(s.level)
  {
    if s.level >= MaxLevel {
      return LevelUp(0, 0, 0, 0, s);
    }
    var level, exp, gained, maxHp, attack := Climb(s, expGained, hpRolls, attackRolls);
    if level >= MaxLevel {
      exp := 0;
      level := MaxLevel;
    }
    r := LevelUp(expGained, gained, maxHp - s.maxHp, attack - s.attack, Stats(level, exp, maxHp, attack));
  }
}
