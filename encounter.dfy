/**
 * The formulas of server/controllers/gameController.js: wild creature
 * generation in explore, the catch probability and reward of catchPokemon,
 * and the single-turn battle resolver of attack, which here returns the new
 * snapshots instead of mutating the request objects.
 *
 * Numbers are JavaScript numbers taken as exact: integers stay integers and
 * the catch rate is a `real`. Where gameController.js writes `x || d` on a number,
 * a missing field and 0 alike pick the default `d`; the model writes such a
 * field as 0 when absent.
 */
module Encounter {
  import opened Wrappers
  import opened Random

  /** `x || d` for a numeric field: 0 (or absent) gives the default. */
  function OrDefault(x: int, d: int): (v: int)
    ensures x != 0 ==> v == x
    ensures x == 0 ==> v == d
  {
    if x == 0 then d else x
  }

  /**
   * The catch-rate text of a species, as parseFloat would read it: missing
   * (absent or the empty string, both falsy), a number of percent, or text
   * that parses to NaN.
   */
  datatype RateText = Missing | Percent(value: real) | Unparsable

  /** The default rate text given to species without one ("5.9%"). */
  const DefaultRateText := Percent(5.9)

  /** The rate used when the text is missing, unparsable or zero. */
  const FallbackRate := 0.059

  /** The cap on the final catch rate, for every ball. */
  const RateCap := 0.98

  /** An entry of the species catalogue. */
  datatype Species = Species(id: int, name: string, nameEn: string, catchRate: RateText)

  /** A creature met in the wild, as explore reports it. */
  datatype Wild = Wild(speciesId: int, name: string, nameEn: string, level: int, hp: int, maxHp: int, attack: int, catchRate: RateText)

  /**
   * explore: an empty catalogue is an error; otherwise a species chosen by
   * `rIndex`, attack 5..19, hp 30..59, level 1..10, and max_hp equal to hp
   * (the separate max_hp draw of explore is overwritten, so it has no
   * parameter here).
   */
  function Explore(catalog: seq<Species>, rIndex: real, rAttack: real, rHp: real, rLevel: real): (r: Result<Wild, string>)
    requires IsUnit(rIndex) && IsUnit(rAttack) && IsUnit(rHp) && IsUnit(rLevel)
    ensures r.Err? <==> catalog == []
    ensures r.Ok? ==>
      && 5 <= r.value.attack <= 19 && 30 <= r.value.hp <= 59 && 1 <= r.value.level <= 10
      && r.value.maxHp == r.value.hp
    ensures r.Ok? ==> exists i :: 0 <= i < |catalog| && catalog[i].id == r.value.speciesId && catalog[i].name == r.value.name
                                 && catalog[i].nameEn == r.value.nameEn
                                 && r.value.catchRate == (if catalog[i].catchRate == Missing then DefaultRateText else catalog[i].catchRate)
    ensures r.Ok? ==> r.value.catchRate != Missing
  {
    if catalog == [] then Err("pokemon data not loaded")
    else
      var info := catalog[RandomBelow(rIndex, |catalog|)];
      var hp := RandomBelow(rHp, 30) + 30;
      Ok(Wild(info.id, info.name, info.nameEn, RandomBelow(rLevel, 10) + 1, hp, hp, RandomBelow(rAttack, 15) + 5,
              if info.catchRate == Missing then DefaultRateText else info.catchRate))
  }

  /** The multiplier of each ball type; any other id counts as a basic ball. */
  function BallMultiplier(ball: int): (m: real)
    ensures m >= 1.0
    ensures ball !in {1, 2, 3, 4} ==> m == 1.0
    ensures m == 100.0 <==> ball == 4
  {
    if ball == 1 then 1.0
    else if ball == 2 then 1.5
    else if ball == 3 then 2.0
    else if ball == 4 then 100.0
    else 1.0
  }

  /** `parseFloat(text) / 100 || 0.059`. */
  function BaseRate(text: RateText): (b: real)
    ensures text.Percent? && text.value != 0.0 ==> b == text.value / 100.0
    ensures !(text.Percent? && text.value != 0.0) ==> b == FallbackRate
  {
    if text.Percent? && text.value / 100.0 != 0.0 then text.value / 100.0 else FallbackRate
  }

  function Min(a: real, b: real): (m: real)
    ensures m <= a && m <= b && (m == a || m == b)
  {
    if a <= b then a else b
  }

  /**
   * The final catch rate of catchPokemon: the base rate times the ball
   * multiplier, plus up to 0.3 for missing hp, capped at 0.98. With a zero
   * max_hp catchPokemon divides a positive hp by zero and the rate becomes
   * minus infinity; that is `None`, a rate no roll meets.
   */
  function CatchRate(text: RateText, ball: int, hp: int, maxHp: int): (r: Option<real>)
    ensures r.None? <==> maxHp == 0
    ensures r.Some? ==> r.value <= RateCap
    ensures r.Some? ==> r.value == RateCap || r.value == BaseRate(text) * BallMultiplier(ball) + (1.0 - hp as real / maxHp as real) * 0.3
  {
    if maxHp == 0 then None
    else
      var hpBonus := (1.0 - hp as real / maxHp as real) * 0.3;
      Some(Min(BaseRate(text) * BallMultiplier(ball) + hpBonus, RateCap))
  }

  /** `Math.random() <= finalCatchRate`. */
  predicate Caught(roll: real, rate: Option<real>) {
    rate.Some? && roll <= rate.value
  }

  /** Even the master ball is capped: a roll at or above 0.98 escapes every ball. */
  lemma NoSureCatch(text: RateText, ball: int, hp: int, maxHp: int, roll: real)
    requires roll > RateCap
    ensures !Caught(roll, CatchRate(text, ball, hp, maxHp))
  {
  }

  /** With a positive base rate of at least 1%, the master ball reaches the cap at any hp up to max_hp. */
  lemma MasterBallReachesCap(text: RateText, hp: int, maxHp: int)
    requires BaseRate(text) >= 0.01 && 0 <= hp <= maxHp && maxHp > 0
    ensures CatchRate(text, 4, hp, maxHp) == Some(RateCap)
  {
    var frac := hp as real / maxHp as real;
    assert frac <= 1.0 by {
      assert frac * maxHp as real == hp as real;
    }
    assert BaseRate(text) * 100.0 >= 1.0;
  }

  /** Wearing a creature down never lowers the catch rate. */
  lemma LowerHpNoHarder(text: RateText, ball: int, h1: int, h2: int, maxHp: int)
    requires h1 <= h2 && maxHp > 0
    ensures CatchRate(text, ball, h1, maxHp).value >= CatchRate(text, ball, h2, maxHp).value
  {
    var m := maxHp as real;
    assert h1 as real / m <= h2 as real / m by {
      assert (h2 as real / m - h1 as real / m) * m == h2 as real - h1 as real;
    }
  }

  /** A basic ball on a full-health creature with the default text catches with probability 0.059. */
  lemma DefaultRateExample(hp: int)
    requires hp > 0
    ensures CatchRate(DefaultRateText, 1, hp, hp) == Some(0.059)
  {
    assert hp as real / hp as real == 1.0;
  }

  /** The money for a catch, `floor(level * 10 + r * 20 + 10)` with level defaulting to 10. */
  function CatchReward(level: int, r: real): (m: int)
    requires IsUnit(r)
    ensures OrDefault(level, 10) * 10 + 10 <= m <= OrDefault(level, 10) * 10 + 29
  {
    var lvl := OrDefault(level, 10);
    FloorShift(lvl * 10 + 10, r * 20.0);
    ScaleBounds(r, 20.0);
    ((lvl * 10) as real + r * 20.0 + 10.0).Floor
  }

  /** Flooring commutes with adding an integer. */
  lemma FloorShift(n: int, x: real)
    ensures (n as real + x).Floor == n + x.Floor
  {
  }

  /**
   * The experience a catch gives the fielded creature: a multiple of 15, at
   * least 15 for a non-negative level, and 150 when the level is missing.
   */
  function CatchExp(level: int): (e: int)
    ensures e % 15 == 0
    ensures level >= 0 ==> e >= 15
    ensures level == 0 ==> e == 150
  {
    OrDefault(level, 10) * 15
  }

  /** The two combatants of one turn: the fields attack reads and writes. */
  datatype Fighter = Fighter(hp: int, attack: int, level: int, rewardMoney: int)

  /** What one turn of attack reports. */
  datatype Turn =
    | Victory(enemy: Fighter, reward: int, expGained: int)
    | Defeat(player: Fighter, enemy: Fighter)
    | Ongoing(player: Fighter, enemy: Fighter)

  /** The player's hit, `floor(r * attack) + 5`. */
  function PlayerDamage(attack: int, r: real): (d: int)
    requires IsUnit(r)
    ensures attack >= 0 ==> 5 <= d && (attack > 0 ==> d <= attack + 4)
  {
    RandomBelow(r, attack) + 5
  }

  /** The enemy's counter-attack, `floor(r * attack) + 3`. */
  function EnemyDamage(attack: int, r: real): (d: int)
    requires IsUnit(r)
    ensures attack >= 0 ==> 3 <= d && (attack > 0 ==> d <= attack + 2)
  {
    RandomBelow(r, attack) + 3
  }

  /**
   * One turn of attack. The player hits first; an enemy brought to 0 hp or
   * below is set to 0 and the player wins the gym's reward_money (500 when
   * unset) or 50..99 in the wild, and level * 50 or level * 20 experience
   * (level 10 when unset), with no counter-attack. Otherwise the enemy hits
   * back; a player at 0 hp or below is set to 0 and loses.
   */
  function ResolveTurn(player: Fighter, enemy: Fighter, isGym: bool, rHit: real, rReward: real, rCounter: real): (t: Turn)
    requires IsUnit(rHit) && IsUnit(rReward) && IsUnit(rCounter)
    ensures t.Victory? <==> enemy.hp - PlayerDamage(player.attack, rHit) <= 0
    ensures t.Victory? ==> t.enemy == enemy.(hp := 0)
    ensures t.Victory? && isGym ==> t.reward == OrDefault(enemy.rewardMoney, 500) && t.expGained == OrDefault(enemy.level, 10) * 50
    ensures t.Victory? && !isGym ==> 50 <= t.reward <= 99 && t.expGained == OrDefault(enemy.level, 10) * 20
    ensures !t.Victory? ==> t.enemy == enemy.(hp := enemy.hp - PlayerDamage(player.attack, rHit)) && t.enemy.hp > 0
    ensures !t.Victory? ==>
      var hit := player.hp - EnemyDamage(enemy.attack, rCounter);
      && (t.Defeat? <==> hit <= 0)
      && t.player == player.(hp := if hit <= 0 then 0 else hit)
    ensures !t.Victory? ==> t.player.hp >= 0
  {
    var enemyHp := enemy.hp - PlayerDamage(player.attack, rHit);
    if enemyHp <= 0 then
      var level := OrDefault(enemy.level, 10);
      Victory(enemy.(hp := 0),
              if isGym then OrDefault(enemy.rewardMoney, 500) else RandomBelow(rReward, 50) + 50,
              if isGym then level * 50 else level * 20)
    else
      var hit := player.hp - EnemyDamage(enemy.attack, rCounter);
      if hit <= 0 then Defeat(player.(hp := 0), enemy.(hp := enemyHp))
      else Ongoing(player.(hp := hit), enemy.(hp := enemyHp))
  }

  /** Against a non-negative attack, a turn always costs the enemy at least 5 hp, or ends it. */
  lemma TurnProgress(player: Fighter, enemy: Fighter, isGym: bool, rHit: real, rReward: real, rCounter: real)
    requires IsUnit(rHit) && IsUnit(rReward) && IsUnit(rCounter) && player.attack >= 0
    ensures var t := ResolveTurn(player, enemy, isGym, rHit, rReward, rCounter);
            t.Victory? || t.enemy.hp <= enemy.hp - 5
  {
  }
}
