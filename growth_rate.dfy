/**
 * server/services/growthRateService.js: experience tables of a growth rate
 * as PokeAPI serves them, with a fallback curve, a level lookup, stat growth
 * and a cache that is trusted for 24 hours.
 *
 * The network fetch is an input: `Option<seq<LevelExp>>` is the outcome of
 * one request (`None` for a failed request or a non-OK response). The
 * outcome of fetchGrowthRateData as the other functions see it is a
 * `Result`, `Err` when the fetch failed with nothing cached.
 */
module GrowthRate {
  import opened Wrappers
  import opened Random
  import opened Progression

  /** One row of a growth rate's `levels` table. */
  datatype LevelExp = LevelExp(level: int, experience: int)

  /** fetchGrowthRateData failed and no cache was held. */
  datatype FetchError = FetchError

  /** The cache lifetime, 24 hours in milliseconds. */
  const CacheDuration := 1000 * 60 * 60 * 24

  /** getExpForLevelFallback: 0 up to level 1, the game server's curve from level 2 on. */
  function Fallback(level: int): (e: int)
    ensures level <= 1 ==> e == 0
    ensures level >= 2 ==> e == ExpForLevel(level)
  {
    if level <= 1 then 0 else 100 + (level - 1) * 15 + (level - 1) * (level - 1) * 2
  }

  /** `levels.find(l => l.level === level)`: the first row for that level. */
  function Find(table: seq<LevelExp>, level: int): (r: Option<LevelExp>)
    ensures r.None? <==> forall i :: 0 <= i < |table| ==> table[i].level != level
    ensures r.Some? ==> exists i :: 0 <= i < |table| && table[i] == r.value && table[i].level == level
                                     && forall j :: 0 <= j < i ==> table[j].level != level
  {
    if table == [] then None
    else if table[0].level == level then Some(table[0])
    else
      var r := Find(table[1..], level);
      if r.Some? then
        ghost var i :| 0 <= i < |table| - 1 && table[1..][i] == r.value && table[1..][i].level == level
                       && forall j :: 0 <= j < i ==> table[1..][j].level != level;
        assert table[i + 1] == r.value;
        assert forall j :: 0 <= j < i + 1 ==> table[j].level != level by {
          forall j | 0 <= j < i + 1 ensures table[j].level != level {
            if j > 0 { assert table[j] == table[1..][j - 1]; }
          }
        }
        r
      else
        assert forall i :: 0 <= i < |table| ==> table[i].level != level by {
          forall i | 0 <= i < |table| ensures table[i].level != level {
            if i > 0 { assert table[i] == table[1..][i - 1]; }
          }
        }
        r
  }

  /** getExpForLevel: the table's experience for that exact level, else the fallback curve. */
  function ExpForLevelFrom(data: Result<seq<LevelExp>, FetchError>, level: int): (e: int)
    ensures data.Ok? && Find(data.value, level).Some? ==> e == Find(data.value, level).value.experience
    ensures data.Err? || Find(data.value, level).None? ==> e == Fallback(level)
  {
    if data.Ok? && Find(data.value, level).Some? then Find(data.value, level).value.experience else Fallback(level)
  }

  /** Level `i` has a row and `totalExp` reaches its experience. */
  predicate Reaches(table: seq<LevelExp>, totalExp: int, i: int) {
    Find(table, i).Some? && totalExp >= Find(table, i).value.experience
  }

  /** What getLevelFromExp reports. */
  datatype LevelInfo = LevelInfo(level: int, expForCurrentLevel: int, expForNextLevel: int)

  /**
   * getLevelFromExp: the highest level from `maxLevel` down to 1 whose row
   * `totalExp` reaches, with that row's experience and the next level's (the
   * current one's when the next row is missing or the level is the maximum).
   * When no level qualifies the answer is level 1 with 0 and 0; when the
   * fetch failed it is level 1 with 0 and 100.
   */
  method LevelFromExp(data: Result<seq<LevelExp>, FetchError>, totalExp: int, maxLevel: int) returns (r: LevelInfo)
    ensures data.Err? ==> r == LevelInfo(1, 0, 100)
    ensures data.Ok? ==>
      var t := data.value;
      if exists i :: 1 <= i <= maxLevel && Reaches(t, totalExp, i) then
        && 1 <= r.level <= maxLevel && Reaches(t, totalExp, r.level)
        && (forall j :: r.level < j <= maxLevel ==> !Reaches(t, totalExp, j))
        && r.expForCurrentLevel == Find(t, r.level).value.experience
        && r.expForNextLevel == (if r.level < maxLevel && Find(t, r.level + 1).Some? then Find(t, r.level + 1).value.experience
                                 else r.expForCurrentLevel)
      else r == LevelInfo(1, 0, 0)
  {
    if data.Err? {
      return LevelInfo(1, 0, 100);
    }
    var t := data.value;
    var currentLevel, expForCurrentLevel, expForNextLevel := 1, 0, 0;
    var i := maxLevel;
    var found := false;
    while i >= 1 && !found
      invariant i <= maxLevel
      invariant !found ==> forall j :: i < j <= maxLevel ==> !Reaches(t, totalExp, j)
      invariant !found ==> currentLevel == 1 && expForCurrentLevel == 0 && expForNextLevel == 0
      invariant found ==>
        && 1 <= currentLevel <= maxLevel && Reaches(t, totalExp, currentLevel)
        && (forall j :: currentLevel < j <= maxLevel ==> !Reaches(t, totalExp, j))
        && expForCurrentLevel == Find(t, currentLevel).value.experience
        && (currentLevel < maxLevel ==>
              expForNextLevel == (if Find(t, currentLevel + 1).Some? then Find(t, currentLevel + 1).value.experience
                                  else expForCurrentLevel))
      decreases i, !found
    {
      var levelData := Find(t, i);
      if levelData.Some? && totalExp >= levelData.value.experience {
        currentLevel := i;
        expForCurrentLevel := levelData.value.experience;
        if i < maxLevel {
          var nextLevelData := Find(t, i + 1);
          expForNextLevel := if nextLevelData.Some? then nextLevelData.value.experience else expForCurrentLevel;
        }
        found := true;
      } else {
        i := i - 1;
      }
    }
    r := LevelInfo(currentLevel, expForCurrentLevel, if currentLevel < maxLevel then expForNextLevel else expForCurrentLevel);
  }

  /**
   * calculateStatGrowth: the max-HP and attack growth of the `levelsGained`
   * levels up to `newLevel`, with the per-level gains of the level-up loop;
   * the k-th level uses `hpRolls[k]` and `attackRolls[k]`.
   */
  method CalculateStatGrowth(levelsGained: int, newLevel: int, hpRolls: seq<real>, attackRolls: seq<real>)
    returns (hpGained: int, attackGained: int)
    requires AllUnit(hpRolls) && AllUnit(attackRolls)
    requires levelsGained <= |hpRolls| && levelsGained <= |attackRolls|
    ensures levelsGained <= 0 ==> hpGained == 0 && attackGained == 0
    ensures levelsGained > 0 ==>
      && hpGained == HpTotal(newLevel - levelsGained, levelsGained, hpRolls)
      && attackGained == AttackTotal(newLevel - levelsGained, levelsGained, attackRolls)
    ensures levelsGained > 0 && newLevel >= levelsGained ==>
      && 4 * levelsGained <= hpGained <= (8 + newLevel / 10) * levelsGained
      && 2 * levelsGained <= attackGained <= (4 + newLevel / 15) * levelsGained
  {
    hpGained, attackGained := 0, 0;
    var i := 0;
    while i < levelsGained
      invariant levelsGained > 0 ==> 0 <= i <= levelsGained
      invariant levelsGained <= 0 ==> i == 0
      invariant hpGained == HpTotal(newLevel - levelsGained, i, hpRolls)
      invariant attackGained == AttackTotal(newLevel - levelsGained, i, attackRolls)
    {
      var level := newLevel - levelsGained + i + 1;
      TotalsStep(newLevel - levelsGained, i, hpRolls, attackRolls);
      var hpStep, attackStep := HpGain(level, hpRolls[i]), AttackGain(level, attackRolls[i]);
      hpGained := hpGained + hpStep;
      attackGained := attackGained + attackStep;
      i := i + 1;
    }
    if levelsGained > 0 && newLevel >= levelsGained {
      GrowthBounds(levelsGained, newLevel, hpRolls, attackRolls);
    }
  }

  /** The growth over the levels up to `newLevel` is bounded by the per-level bounds at `newLevel`. */
  lemma GrowthBounds(levelsGained: nat, newLevel: int, hpRolls: seq<real>, attackRolls: seq<real>)
    requires AllUnit(hpRolls) && AllUnit(attackRolls)
    requires levelsGained <= |hpRolls| && levelsGained <= |attackRolls| && newLevel >= levelsGained
    ensures var hp := HpTotal(newLevel - levelsGained, levelsGained, hpRolls);
            4 * levelsGained <= hp <= (8 + newLevel / 10) * levelsGained
    ensures var attack := AttackTotal(newLevel - levelsGained, levelsGained, attackRolls);
            2 * levelsGained <= attack <= (4 + newLevel / 15) * levelsGained
  {
    var from := newLevel - levelsGained;
    HpTotalBounds(from, levelsGained, hpRolls);
    AttackTotalBounds(from, levelsGained, attackRolls);
    assert from + levelsGained == newLevel;
  }

  /** getExpTable: the rows with minLevel <= level <= maxLevel, in table order. */
  function ExpTable(levels: seq<LevelExp>, minLevel: int, maxLevel: int): (r: seq<LevelExp>)
    ensures |r| <= |levels|
    ensures forall i :: 0 <= i < |r| ==> minLevel <= r[i].level <= maxLevel && r[i] in levels
  {
    if levels == [] then []
    else
      var rest := ExpTable(levels[1..], minLevel, maxLevel);
      if minLevel <= levels[0].level <= maxLevel then [levels[0]] + rest else rest
  }

  /** getExpTable on the fetch outcome: no rows when the fetch failed. */
  function ExpTableFrom(data: Result<seq<LevelExp>, FetchError>, minLevel: int, maxLevel: int): (r: seq<LevelExp>)
    ensures data.Err? ==> r == []
    ensures data.Ok? ==> r == ExpTable(data.value, minLevel, maxLevel)
  {
    if data.Err? then [] else ExpTable(data.value, minLevel, maxLevel)
  }

  /** Every in-range row is kept. */
  lemma {:induction false} ExpTableComplete(levels: seq<LevelExp>, minLevel: int, maxLevel: int, e: LevelExp)
    requires e in levels && minLevel <= e.level <= maxLevel
    ensures e in ExpTable(levels, minLevel, maxLevel)
  {
    if levels[0] != e {
      ExpTableComplete(levels[1..], minLevel, maxLevel, e);
    }
  }

  /** Filtering distributes over concatenation, so the table keeps the order of the input. */
  lemma {:induction false} ExpTableAppend(a: seq<LevelExp>, b: seq<LevelExp>, minLevel: int, maxLevel: int)
    ensures ExpTable(a + b, minLevel, maxLevel) == ExpTable(a, minLevel, maxLevel) + ExpTable(b, minLevel, maxLevel)
  {
    if a == [] {
      assert a + b == b;
    } else {
      assert (a + b)[1..] == a[1..] + b;
      ExpTableAppend(a[1..], b, minLevel, maxLevel);
    }
  }

  /**
   * Whether fetchGrowthRateData answers from the cache without fetching: a
   * cached table and a last fetch time (0 standing for none, as JavaScript
   * reads a null or zero time) less than 24 hours before `now`.
   */
  predicate CacheHit(cache: Option<seq<LevelExp>>, lastFetchTime: int, now: int) {
    cache.Some? && lastFetchTime != 0 && now - lastFetchTime < CacheDuration
  }

  /** The module-level cache of growthRateService.js. */
  class GrowthRateCache {
    var cache: Option<seq<LevelExp>>
    var lastFetchTime: int

    constructor ()
      ensures cache == None && lastFetchTime == 0
    {
      cache, lastFetchTime := None, 0;
    }

    /**
     * fetchGrowthRateData at time `now`: a cache hit is returned without a
     * request (`fetched` false). Otherwise `outcome` is the request's
     * outcome: a table replaces the cache, stamped with the time `doneAt`
     * the response arrived; a failure falls back on a stale cache if there
     * is one.
     */
    method Fetch(now: int, outcome: Option<seq<LevelExp>>, doneAt: int) returns (r: Result<seq<LevelExp>, FetchError>, fetched: bool)
      modifies this
      ensures fetched <==> !old(CacheHit(cache, lastFetchTime, now))
      ensures !fetched ==> unchanged(this) && r == Ok(old(cache).value)
      ensures fetched && outcome.Some? ==> cache == outcome && lastFetchTime == doneAt && r == Ok(outcome.value)
      ensures fetched && outcome.None? ==> unchanged(this) && (r.Ok? <==> old(cache).Some?)
      ensures fetched && outcome.None? && r.Ok? ==> r.value == old(cache).value
    {
      if CacheHit(cache, lastFetchTime, now) {
        return Ok(cache.value), false;
      }
      fetched := true;
      if outcome.Some? {
        cache, lastFetchTime := outcome, doneAt;
        return Ok(outcome.value), fetched;
      }
      if cache.Some? {
        return Ok(cache.value), fetched;
      }
      r := Err(FetchError);
    }
  }

  /** A fetch stamped at a non-zero time serves every call in the following 24 hours from the cache. */
  lemma FreshForADay(table: seq<LevelExp>, doneAt: int, now: int)
    requires doneAt != 0 && now < doneAt + CacheDuration
    ensures CacheHit(Some(table), doneAt, now)
  {
  }

  /** From 24 hours on, the cache is fetched again. */
  lemma StaleAfterADay(cache: Option<seq<LevelExp>>, lastFetchTime: int, now: int)
    requires now >= lastFetchTime + CacheDuration
    ensures !CacheHit(cache, lastFetchTime, now)
  {
  }
}
