# pokemon-nodejs game rules, modelled in Dafny

This project models the rules engine of the pokemon-nodejs browser game.
The game server keeps players, their one fielded creature (the party), the
creatures in storage, their poke balls, gym badges, a pokedex and special
badges in relational tables.

The model covers:

- **Progression** (`progression.dfy`): the experience curve and the level-up
  loop of `addExpToPokemon`, with its per-level max-HP and attack growth.
- **The tables and the model functions that change them** (`game_store.dfy`):
  one `Store` class. Its `Valid()` invariant is the schema's foreign keys and
  unique keys. Its methods are `registerPlayer` (the seed values),
  `addToParty`, `addToStorage`, `useItem`, `updateItemQuantity`,
  `buyPokeball`, `addBadge`, `addToPokedex`, `checkAndAwardFullPokedex`,
  `getPokedexStats`, `restorePokemonHp`, `addExpToPokemon`,
  `switchMainPokemon`, `migrateExtraPartyToStorage` and `getLeaderboard`.
  Each runs as one atomic step.
- **The leaderboard ordering** (`leaderboard.dfy`): a lexicographic descending
  sort on (pokemon_caught, gyms_defeated, money), keeping the first 50.
- **The controller's pure formulas** (`encounter.dfy`): wild-creature
  generation, the catch rate, the catch reward, and a single-turn battle
  resolver that returns new snapshots.
- **The controller handlers that change the store** (`game_controller.dfy`):
  catching, the effects of a battle victory, earning a badge, buying balls
  and the sign-up checks.
- **The growth-rate service** (`growth_rate.dfy`): the fallback curve, table
  lookup, `getLevelFromExp`, `calculateStatGrowth`, `getExpTable` and the
  24-hour cache as a class.
- **The PostgreSQL branch of `query`** (`pg_query.dfy`): `?` to `$n`
  rewriting, appending `RETURNING id`, and MySQL-style `insertId`.
- **The MySQL to PostgreSQL export helpers** (`supabase_export.dfy`):
  `convertType`, `escapeValue` and the column-definition loop.
- **The UPDATE builder of the pokemons admin table** (`pokemon_model.dfy`).
- **The battle screen's client rules** (`game_view.dfy`): the experience bar's
  target and the three-failed-catches flee rule.

Shared modules: `Wrappers` (Option, Result), `Random` and `Text` (digits,
JavaScript white space, ASCII case folding, substring search).

`Random` lifts every `Math.random()` to a real parameter `r` with
`0 <= r < 1`. `Math.floor(r * n)` becomes `RandomBelow(r, n)`. The draws made
for each level reached come as two sequences of such reals.

Clocks, the network fetch of the growth rate and the database drivers become
parameters too. JavaScript numbers are exact here: integers stay integers and
the catch rate is a `real`.

Where the code and its own comments or documentation disagree, the model
follows the code:

- The master ball is capped at 0.98 like every ball, although its
  multiplier is commented as a sure catch
  (`Encounter.NoSureCatch`, `Encounter.MasterBallReachesCap`).
- `addExpToPokemon` sets hp to the new max_hp on every call, also when no
  level is gained (`GameStore.Store.AddExpToPokemon`).
- The sample table in the comment of `getExpForLevel` does not match its
  formula. Level 5 needs 192, not 232 (`Progression.ExpForLevelSamples`).
- The growth service's fallback curve gives 0, not 100, at level 1 and
  below (`GrowthRate.Fallback`).
- Migration moves the rows above position 1.
- A creature that passes through storage loses its experience, because the
  storage table has no exp column.
- The export's `CHARACTER_MAXIMUM_LENGTH` override never fires, because
  `convertType` never answers a bare `VARCHAR`
  (`SupabaseExport.ColumnTypeIgnoresLength`).
- `earnBadge` for a gym that does not exist fails on the foreign key and so
  gives the "already earned" reply (`GameController.EarnBadge`).
- On PostgreSQL, `query` resolves to `[result.rows, result]` and puts the
  emulated `insertId` on the second element. The callers in `gameModel.js`
  read it from the first element, where it is undefined. `createPokemon`
  reads the second element, which is undefined on MySQL
  (`PgQuery.GameModelInsertId`, `PgQuery.PokemonModelInsertId`). The store
  is modelled with MySQL's behaviour.
- An INSERT that fails on a unique or foreign key still uses up its
  AUTO_INCREMENT value, so ids can have gaps (`GameStore.Store.SkipPlayerId`
  and its partners).
- An empty column default is a number to `isNaN`, so the export writes a bare
  `DEFAULT` with nothing after it (`SupabaseExport.DefaultEmpty`).

## Model

| member | source | states |
|---|---|---|
| Progression.ExpForLevel | server/models/gameModel.js:549-557 | the experience for the next level is never below 100 |
| Progression.ExpForLevelIncreasing | server/models/gameModel.js:549-557 | the curve is strictly increasing from level 1 on |
| Progression.ExpForLevelSamples | server/models/gameModel.js:550-556 | levels 0, 1, 2, 5 and 10 need 100, 100, 117, 192 and 397; level 5 is not the commented 232 |
| Progression.HpGain | server/models/gameModel.js:608-611 | the max-HP gain on reaching level L lies in [4 + L/10, 8 + L/10] |
| Progression.AttackGain | server/models/gameModel.js:613-616 | the attack gain on reaching level L lies in [2 + L/15, 4 + L/15] |
| Progression.HpTotalBounds | server/models/gameModel.js:600-617 | k levels reached add between 4k and (8 + top/10)k max HP |
| Progression.AttackTotalBounds | server/models/gameModel.js:600-617 | k levels reached add between 2k and (4 + top/15)k attack |
| Progression.HpTotal | server/models/gameModel.js:600-611 | (specification function, no contract of its own) the max-HP growth summed over the levels reached; bounded by HpTotalBounds |
| Progression.AttackTotal | server/models/gameModel.js:600-616 | (specification function, no contract of its own) the attack growth summed over the levels reached; bounded by AttackTotalBounds |
| Progression.Settle | server/models/gameModel.js:601-605 | the loop's exit: the level never decreases and ends at most 100; below 100 the remaining exp is under that level's threshold |
| Progression.SettleConservesExp | server/models/gameModel.js:601-604 | the exp spent is exactly the sum of the thresholds of the levels passed |
| Progression.Climb | server/models/gameModel.js:591-617 | the while loop ends where Settle says; levels gained, max HP and attack are the per-level totals |
| Progression.ApplyExperience | server/models/gameModel.js:575-623 | at level 100 or above nothing changes and zero gains are reported; otherwise the level ends at most 100, exp is under the threshold below 100 and 0 at 100, levelsGained = new level - old level, and the gains equal the totals; leveledUp iff the level rose, iff the experience reached the first threshold below level 100 |
| GameStore.FindEntry | server/models/gameModel.js:657-660 | finds the pokedex row of (player, species), and finds none exactly when no row matches |
| GameStore.GetPokedexStats | server/models/gameModel.js:698-713 | the total is 1025; discovered is 0 exactly when the player has no row |
| GameStore.StatsAfterAppend | server/models/gameModel.js:671-674 | a new row adds one discovered species and its catches to its owner only |
| GameStore.StatsAfterIncrement | server/models/gameModel.js:664-667 | another catch of a known species adds one to the owner's total caught and changes no discovered count |
| GameStore.Credit | server/models/gameModel.js:275-280 | adds the amount to that player's money only; an unknown id changes no row |
| GameStore.CountCatch | server/models/gameModel.js:348-351 | adds one to that player's pokemon_caught only |
| GameStore.NewEntry | server/models/gameModel.js:671-674 | the inserted pokedex row has total_caught 1, and name_en falls back to the name |
| GameStore.AwardFullPokedex | server/models/gameModel.js:716-746 | the player has the full-pokedex badge afterwards iff they had it or have discovered at least 1025 species |
| GameStore.RecordCatchKeeps | server/models/gameModel.js:177-190 | recording a catch keeps one pokedex row per (player, species) and the foreign keys; only money can change in players |
| GameStore.RecordCatchCounts | server/models/gameModel.js:654-686 | a catch adds exactly 1 to the player's total caught, and 1 to discovered iff the species is new |
| GameStore.RewardAtMostOnce | server/models/gameModel.js:720-742 | a player who holds the full-pokedex badge gains no money and no badge from a catch |
| GameStore.RewardOnCompletion | server/models/gameModel.js:716-742 | the catch that completes the pokedex earns the badge and 10000 money |
| GameStore.RecordCatch | server/models/gameModel.js:654-686 | a catch keeps the set of players and their names, adds at most one pokedex row and never takes a special badge away |
| GameStore.CountGym | server/models/gameModel.js:454-457 | adds one to that player's gyms_defeated only |
| GameStore.Restocked | server/models/gameModel.js:399-406 | the item row becomes old quantity (0 if missing) + qty; other rows are unchanged |
| GameStore.SwitchStorageCount | server/models/gameModel.js:796-828 | after a switch the player's storage count is unchanged if a creature was displaced, else one less |
| GameStore.EntryOf | server/models/gameModel.js:531-537 | a leaderboard row carries the player's id, name, catches, gyms and money |
| GameStore.CopyToStorage | server/models/gameModel.js:505-518 | every listed party row is copied to storage under consecutive new ids and deleted; all other rows are untouched |
| GameStore.Store.constructor | server/models/gameModel.js:8-210 | an empty database with the seeded catalogs satisfies the schema |
| GameStore.Store.Valid | server/models/gameModel.js:8-210 | (invariant, no contract of its own) ids below their AUTO_INCREMENT counters, every foreign key, and the unique keys on names (up to case), party positions, item rows and pokedex rows |
| GameStore.Store.RegisterPlayer | server/models/gameModel.js:213-227 | a name over 50 characters changes nothing; a name equal to a taken one up to case uses up one player id and changes nothing else; otherwise the new id holds money 1000 and zero counters, with five basic balls |
| GameStore.Store.SkipPlayerId | server/models/gameModel.js:217-220 | a failed players INSERT advances only the players id counter and keeps the schema |
| GameStore.Store.SkipPartyId | server/models/gameModel.js:340-345 | a failed player_party INSERT advances only the party id counter and keeps the schema |
| GameStore.Store.SkipStorageId | server/models/gameModel.js:369-373 | a failed player_storage INSERT advances only the storage id counter and keeps the schema |
| GameStore.Store.InsertPlayer | server/models/gameModel.js:217-225 | the two inserts of registration keep the schema |
| GameStore.Store.UpdatePlayerMoney | server/models/gameModel.js:275-280 | players becomes Credit(old players, id, amount); no other table changes |
| GameStore.Store.CheckAndAwardFullPokedex | server/models/gameModel.js:716-746 | awards iff discovered >= 1025, the badge is not held and the player exists; the books equal AwardFullPokedex |
| GameStore.Store.AddToPokedex | server/models/gameModel.js:654-686 | the books follow RecordCatch; isNew iff the species was new for an existing player |
| GameStore.Store.CountAgain | server/models/gameModel.js:662-668 | the UPDATE adds one to total_caught of that row and keeps the schema |
| GameStore.Store.AppendEntry | server/models/gameModel.js:670-675 | the INSERT of a new species row keeps the schema |
| GameStore.Store.InsertFirstPartyRow | server/models/gameModel.js:340-345 | the party row goes in under the next id and keeps one creature per player |
| GameStore.Store.InsertStorageRow | server/models/gameModel.js:369-373 | the storage row goes in under the next id |
| GameStore.Store.CountCatchOf | server/models/gameModel.js:348-351 | players becomes CountCatch(old players, id) |
| GameStore.Store.AddToParty | server/models/gameModel.js:330-357 | refused with no change iff the player has a party row; an unknown player uses up one party id and changes nothing else; otherwise one row at position 1 with exp 0 under the next id, and the books follow RecordCatch |
| GameStore.Store.AddToStorage | server/models/gameModel.js:368-385 | an unknown player uses up one storage id and changes nothing else; otherwise one storage row under the next id, with the same bookkeeping as addToParty |
| GameStore.Store.InsertPartyRow | server/models/gameModel.js:816-822 | the chosen creature goes in at a position free for its owner |
| GameStore.Store.UpdatePartyRow | server/models/gameModel.js:626-631 | rewriting a row with the same owner and position keeps the schema |
| GameStore.Store.DeletePartyRow | server/models/gameModel.js:809-812 | removes exactly that party row |
| GameStore.Store.DeleteStorageRow | server/models/gameModel.js:825-828 | removes exactly that storage row |
| GameStore.Store.UseItem | server/models/gameModel.js:408-423 | succeeds iff the row exists with quantity > 0, then decrements it by exactly 1; otherwise nothing changes; non-negative stock is kept |
| GameStore.Store.WriteItem | server/models/gameModel.js:399-423 | writing one item row with a known key or known player and ball keeps the schema, and a non-negative quantity keeps stock non-negative |
| GameStore.Store.UpdateItemQuantity | server/models/gameModel.js:399-406 | upsert: the row becomes Restocked(old, key, qty); a new row for an unknown player or ball fails with no change |
| GameStore.Store.BuyPokeball | server/models/gameModel.js:470-491 | an unknown ball, an unknown player or money < price * qty changes nothing; otherwise money -= price * qty and stock += qty, and money stays >= 0 |
| GameStore.Store.AddBadge | server/models/gameModel.js:447-462 | succeeds iff player and gym exist and the badge is new; then the badge is added and gyms_defeated goes up by 1; otherwise nothing changes |
| GameStore.Store.RestorePokemonHp | server/models/gameModel.js:758-768 | the row's hp becomes its max_hp; an unknown id changes nothing |
| GameStore.Store.AddExpToPokemon | server/models/gameModel.js:560-650 | an unknown row is an error; at level 100 nothing changes; otherwise the row gets the loop's level, exp, max_hp and attack, and hp = max_hp |
| GameStore.Store.StashMain | server/models/gameModel.js:796-813 | the player's party row, if any, moves to storage without its exp |
| GameStore.Store.CommitTables | server/models/gameModel.js:830-840 | the party and storage tables are replaced as one step |
| GameStore.Store.SwitchMainPokemon | server/models/gameModel.js:771-845 | a missing or foreign storage id changes nothing; otherwise the party holds just the chosen creature with exp 0, the displaced one is in storage, and the storage count follows SwitchStorageCount; if position 1 is still held, both tables roll back with one party id, and one storage id per displaced row, used up |
| GameStore.Store.MigrateExtraPartyToStorage | server/models/gameModel.js:494-526 | every party row above position 1 moves to storage with its attributes; the count moved is reported and none remain |
| GameStore.Store.MigrateTwice | server/models/gameModel.js:494-526 | a second migration moves 0 rows |
| GameStore.Store.GetLeaderboard | server/models/gameModel.js:529-544 | the result is Top of a listing of every player exactly once |
| Leaderboard.Insert | server/models/gameModel.js:539 | insertion adds exactly that row |
| Leaderboard.InsertRanked | server/models/gameModel.js:539 | insertion keeps a ranked sequence ranked |
| Leaderboard.Sort | server/models/gameModel.js:539 | the sort is a permutation |
| Leaderboard.SortRanked | server/models/gameModel.js:539 | the sort is descending on (pokemon_caught, gyms_defeated, money) |
| Leaderboard.Top | server/models/gameModel.js:540 | the leaderboard has min(n, 50) rows |
| Leaderboard.TopRanked | server/models/gameModel.js:539-540 | the leaderboard is ranked |
| Leaderboard.TopFromRows | server/models/gameModel.js:539-540 | the leaderboard holds only players' rows |
| Leaderboard.TopIsBest | server/models/gameModel.js:539-540 | every row left out ranks no higher than every row kept |
| Encounter.OrDefault | server/controllers/gameController.js:259 | `x \|\| d` on a number: 0 gives the default |
| Encounter.Explore | server/controllers/gameController.js:127-162 | an empty catalogue fails; otherwise the wild creature carries some entry's id, name and name_en, that entry's catch rate or 5.9% when it has none, attack in [5,19], hp in [30,59], level in [1,10], and max_hp equal to hp |
| Encounter.BallMultiplier | server/controllers/gameController.js:232-238 | ball 4 and only ball 4 gives 100; unknown ids give 1 |
| Encounter.BaseRate | server/controllers/gameController.js:228 | percent / 100, or 0.059 when the text is missing, unparsable or zero |
| Encounter.CatchRate | server/controllers/gameController.js:240-246 | min(base * multiplier + (1 - hp/max_hp) * 0.3, 0.98); a zero max_hp gives no rate |
| Encounter.Caught | server/controllers/gameController.js:249-250 | (predicate, no contract of its own) a roll at most the final rate catches; NoSureCatch shows a roll above 0.98 never does |
| Encounter.NoSureCatch | server/controllers/gameController.js:246-250 | a roll above 0.98 escapes every ball |
| Encounter.MasterBallReachesCap | server/controllers/gameController.js:236-246 | the master ball's rate is exactly the 0.98 cap |
| Encounter.LowerHpNoHarder | server/controllers/gameController.js:240-242 | lower hp never lowers the catch rate |
| Encounter.DefaultRateExample | server/controllers/gameController.js:228-246 | a basic ball at full hp with the default text gives 0.059 |
| Encounter.CatchReward | server/controllers/gameController.js:265-266 | the reward lies in [lvl*10 + 10, lvl*10 + 29], with lvl defaulting to 10 |
| Encounter.CatchExp | server/controllers/gameController.js:258-260 | a catch gives a multiple of 15 exp, at least 15 for a non-negative level, and 150 when the level is missing or 0 |
| Encounter.PlayerDamage | server/controllers/gameController.js:311 | the player's hit lies in [5, attack + 4] |
| Encounter.EnemyDamage | server/controllers/gameController.js:356 | the enemy's hit lies in [3, attack + 2] |
| Encounter.ResolveTurn | server/controllers/gameController.js:306-378 | a victory iff the enemy drops to 0 or below, with hp set to 0, the gym or wild reward and exp, and no counter-attack; otherwise the counter-attack, with a defeat iff the player drops to 0 or below, clamped to 0 |
| Encounter.TurnProgress | server/controllers/gameController.js:311-318 | each turn costs the enemy at least 5 hp or ends the battle |
| GameController.CreditBeforeCatch | server/controllers/gameController.js:264-281 | crediting the reward before or after booking a catch gives the same players, pokedex and badges |
| GameController.CatchTally | server/controllers/gameController.js:252-291 | a catch adds one to pokemon_caught, leaves gyms_defeated alone, and adds the reward (plus 10000 on completion) to money |
| GameController.Grown | server/models/gameModel.js:626-631 | the grown row keeps owner and position, with hp = max_hp |
| GameController.Grow | server/controllers/gameController.js:258-262 | growth keeps the party's ids and changes no row but the fielded one |
| GameController.Heal | server/models/gameModel.js:758-768 | only that row's hp becomes its max_hp |
| GameController.RewardCatch | server/controllers/gameController.js:257-267 | exp only when a fielded creature is named, then the money reward |
| GameController.BookCatch | server/controllers/gameController.js:252-291 | the creature goes to the party iff it is empty, else to storage, with the bookkeeping and rewards |
| GameController.CatchToParty | server/controllers/gameController.js:253-278 | addToParty, then exp and money |
| GameController.CatchToStorage | server/controllers/gameController.js:257-290 | exp and money, then addToStorage |
| GameController.CatchPokemon | server/controllers/gameController.js:200-303 | a fainted creature is refused first and having no ball next, both with no change; otherwise exactly one ball is spent; an escape changes nothing else; a catch books the creature in exactly one place with the reward |
| GameController.Attack | server/controllers/gameController.js:306-382 | only a victory touches the store: exp, hp back to max, and money iff the owner is named |
| GameController.EarnBadge | server/controllers/gameController.js:415-439 | the gym's reward is credited iff addBadge succeeds; otherwise nothing changes |
| GameController.BuyItem | server/controllers/gameController.js:452-475 | a quantity <= 0 is refused before the store is touched; otherwise buyPokeball decides; stock stays non-negative |
| GameController.SignupCheck | server/controllers/gameController.js:22-29 | a missing name or password, then a password under 4 characters, is rejected |
| GameController.RegisterPlayer | server/controllers/gameController.js:20-48 | the input checks first; then a name over 50 characters is the 500 reply with no change, a name taken up to case is NameTaken with one player id used up, else the registration of the store |
| GrowthRate.Fallback | server/services/growthRateService.js:82-88 | 0 at level <= 1, and the game server's curve from level 2 on |
| GrowthRate.Find | server/services/growthRateService.js:61 | the first row for the level, and none iff no row has it |
| GrowthRate.ExpForLevelFrom | server/services/growthRateService.js:56-74 | the table's experience for that exact level if present, else the fallback |
| GrowthRate.LevelFromExp | server/services/growthRateService.js:96-134 | the highest level <= maxLevel whose row totalExp reaches, with its experience and the next level's; none reached gives (1, 0, 0); a failed fetch gives (1, 0, 100) |
| GrowthRate.CalculateStatGrowth | server/services/growthRateService.js:142-164 | sums the per-level gains of the levels up to newLevel; 0 levels gives (0, 0); the totals lie in the per-level ranges |
| GrowthRate.GrowthBounds | server/services/growthRateService.js:146-158 | k levels up to newLevel add [4k, (8 + newLevel/10)k] HP and [2k, (4 + newLevel/15)k] attack |
| GrowthRate.ExpTable | server/services/growthRateService.js:176-181 | keeps only rows with minLevel <= level <= maxLevel |
| GrowthRate.ExpTableFrom | server/services/growthRateService.js:172-186 | a failed fetch gives an empty table |
| GrowthRate.ExpTableComplete | server/services/growthRateService.js:177 | every in-range row is kept |
| GrowthRate.ExpTableAppend | server/services/growthRateService.js:176-177 | the filter distributes over concatenation, so the order is kept |
| GrowthRate.GrowthRateCache.constructor | server/services/growthRateService.js:8-9 | no cache and no fetch time at start |
| GrowthRate.CacheHit | server/services/growthRateService.js:20 | (predicate, no contract of its own) a cached table and a nonzero fetch time under 24 hours old; Fetch fetches iff it fails |
| GrowthRate.GrowthRateCache.Fetch | server/services/growthRateService.js:17-49 | no request iff the cache is fresh; a successful request replaces the cache; a failed one falls back on a stale cache, else fails |
| GrowthRate.FreshForADay | server/services/growthRateService.js:20 | a fetch serves every call in the next 24 hours from the cache |
| GrowthRate.StaleAfterADay | server/services/growthRateService.js:10-22 | after 24 hours the cache is fetched again |
| PgQuery.Rewrite | server/config/database.js:51-52 | each `?` becomes `$` and at least one digit, so the text grows by at least one character per `?` |
| PgQuery.RewritePlaceholders | server/config/database.js:51-52 | the loop computes the left-to-right rewrite numbered from 1 |
| PgQuery.RewriteLeavesNoMark | server/config/database.js:52 | no `?` survives, even inside string literals |
| PgQuery.RewriteWithoutMarks | server/config/database.js:52 | a statement without `?` is unchanged |
| PgQuery.RewriteAppend | server/config/database.js:51-52 | numbering continues across concatenation, left to right |
| PgQuery.IsInsert | server/config/database.js:55 | (predicate, no contract of its own) `/^\s*INSERT\s+INTO/i` over ASCII case folding and JavaScript white space |
| PgQuery.HasReturning | server/config/database.js:55 | (predicate, no contract of its own) `/RETURNING/i`; AppendedHasReturning shows the appended clause matches |
| PgQuery.AppendReturning | server/config/database.js:56-61 | the result ends in `RETURNING id` |
| PgQuery.PgStatementOtherwise | server/config/database.js:55 | other statements only have their placeholders rewritten |
| PgQuery.AppendedHasReturning | server/config/database.js:55-61 | the appended statement has a RETURNING clause |
| PgQuery.AppendReturningChars | server/config/database.js:56-61 | trimming and appending add no `?` |
| PgQuery.PgStatement | server/config/database.js:50-62 | the statement sent to PostgreSQL has no `?`, and every INSERT sent has a RETURNING clause |
| PgQuery.PgStatementIdempotent | server/config/database.js:50-62 | rewriting an already rewritten statement changes nothing |
| PgQuery.PrepareStatement | server/config/database.js:50-62 | the steps of `query` compute exactly PgStatement |
| PgQuery.InsertId | server/config/database.js:67-73 | insertId is set iff the command is INSERT, a row came back and its id is truthy |
| PgQuery.Sent | server/config/database.js:46-64 | MySQL gets the SQL untouched; both get the parameters untouched |
| PgQuery.WriteReply | server/config/database.js:45-76 | MySQL resolves to the result header and undefined; PostgreSQL to the rows array and the result with the emulated insertId |
| PgQuery.FirstInsertId | server/models/gameModel.js:217-226 | `[result]` then `.insertId` finds an id only on a result header |
| PgQuery.SecondInsertId | server/models/pokemonModel.js:24-25 | `[, result]` then `.insertId` throws exactly when the second element is undefined |
| PgQuery.GameModelInsertId | server/models/gameModel.js:217-226 | gameModel.js gets the new id on MySQL and none on PostgreSQL |
| PgQuery.PokemonModelInsertId | server/models/pokemonModel.js:24-25 | pokemonModel.js throws on MySQL and gets the emulated insertId on PostgreSQL |
| PgQuery.RewriteExample | server/config/database.js:52 | `?, ?` becomes `$1, $2` |
| PokemonModel.BuildUpdate | server/models/pokemonModel.js:29-48 | fails iff neither field is given; otherwise only the given fields, name first, then the id last, and the number of `?` equals the number of values |
| PokemonModel.PlaceholderCount | server/models/pokemonModel.js:47-48 | the statement has one `?` per field plus one for the id |
| GameView.ExpForNextLevel | frontend/src/views/game/index.jsx:11-18 | 0 at level >= 100, 100 at level <= 1, and the server's curve in between |
| GameView.EndEncounter | frontend/src/views/game/index.jsx:137-140 | back home with no wild creature and the counter reset |
| GameView.OnExplore | frontend/src/views/game/index.jsx:88-112 | a new encounter resets the counter |
| GameView.OnRun | frontend/src/views/game/index.jsx:236-244 | running away resets the counter and leaves the battle |
| GameView.OnCatch | frontend/src/views/game/index.jsx:115-172 | hp <= 0 is refused without a server call; a catch ends the encounter; an escape counts one, and the third ends it |
| GameView.HandlersKeepCounter | frontend/src/views/game/index.jsx:139-155 | the counter always stays below 3 |
| GameView.ThirdEscapeFlees | frontend/src/views/game/index.jsx:143-155 | two escapes keep the encounter and the third ends it |
| GameView.FaintedNeverAsked | frontend/src/views/game/index.jsx:118-121 | a fainted creature never reaches the server |
| SupabaseExport.LeadingDigits | server/export-for-supabase-clean.js:38 | the longest run of leading digits |
| SupabaseExport.VarcharAt | server/export-for-supabase-clean.js:38 | a match yields at least one digit inside `varchar(...)` at the start of the text |
| SupabaseExport.DecimalAt | server/export-for-supabase-clean.js:42 | a match yields precision and scale digits inside `decimal(p,s)` |
| SupabaseExport.VarcharAtComplete | server/export-for-supabase-clean.js:38 | `varchar(` + digits + `)` at the start matches, with exactly those digits |
| SupabaseExport.DecimalAtComplete | server/export-for-supabase-clean.js:42 | `decimal(` + digits + `,` + digits + `)` at the start matches, with exactly those digits |
| SupabaseExport.FindVarchar | server/export-for-supabase-clean.js:38 | a match is a match at some position |
| SupabaseExport.FindDecimal | server/export-for-supabase-clean.js:42 | a match is a match at some position |
| SupabaseExport.FindVarcharNone | server/export-for-supabase-clean.js:38 | no match found means no position matches |
| SupabaseExport.FindVarcharLeftmost | server/export-for-supabase-clean.js:38 | the match found is the one at the leftmost matching position |
| SupabaseExport.FindDecimalNone | server/export-for-supabase-clean.js:42 | no match found means no position matches |
| SupabaseExport.FindDecimalLeftmost | server/export-for-supabase-clean.js:42 | the match found is the one at the leftmost matching position |
| SupabaseExport.MapLookup | server/export-for-supabase-clean.js:47-51 | TEXT when no TYPE_MAP key starts the type |
| SupabaseExport.MapLookupFirst | server/export-for-supabase-clean.js:47-48 | the first matching key in declaration order wins |
| SupabaseExport.MapLookupNames | server/export-for-supabase-clean.js:17-31 | VARCHAR comes only from the varchar key and NUMERIC only from the decimal key |
| SupabaseExport.ConvertType | server/export-for-supabase-clean.js:33-52 | a type mentioning varchar gives a VARCHAR( type; otherwise one mentioning decimal gives a NUMERIC type |
| SupabaseExport.ConvertTypeVarchar | server/export-for-supabase-clean.js:37-39 | the leftmost `varchar(n)` gives `VARCHAR(n)` |
| SupabaseExport.ConvertTypeVarcharNoLength | server/export-for-supabase-clean.js:37-39 | a varchar without any `varchar(n)` gives `VARCHAR(255)` |
| SupabaseExport.ConvertTypeDecimal | server/export-for-supabase-clean.js:41-43 | without varchar, the leftmost `decimal(p,s)` gives `NUMERIC(p,s)` |
| SupabaseExport.ConvertTypeNeverBareVarchar | server/export-for-supabase-clean.js:37-40 | convertType never answers a bare VARCHAR |
| SupabaseExport.ConvertTypeBareNumeric | server/export-for-supabase-clean.js:41-44 | a bare NUMERIC comes only from a decimal type without (p,s) |
| SupabaseExport.ConvertTypeBoolean | server/export-for-supabase-clean.js:17-20 | tinyint(1) is BOOLEAN |
| SupabaseExport.ConvertTypeSmallint | server/export-for-supabase-clean.js:19-20 | tinyint is SMALLINT |
| SupabaseExport.ConvertTypeUnknown | server/export-for-supabase-clean.js:51 | json is TEXT |
| SupabaseExport.ConvertTypeVarcharDefault | server/export-for-supabase-clean.js:39 | a varchar without a length is VARCHAR(255) |
| SupabaseExport.Double | server/export-for-supabase-clean.js:62 | doubling grows the text by one per occurrence |
| SupabaseExport.UndoubleDouble | server/export-for-supabase-clean.js:62 | un-doubling inverts doubling |
| SupabaseExport.DoubleKeepsCount | server/export-for-supabase-clean.js:62 | doubling one character keeps the count of another |
| SupabaseExport.EscapeString | server/export-for-supabase-clean.js:61-63 | the body grows by one per backslash and per quote, and un-doubling quotes, then backslashes, gives the string back |
| SupabaseExport.Escape | server/export-for-supabase-clean.js:54-67 | everything but NULL, booleans and numbers is quoted, and a quoted string reads back as the string |
| SupabaseExport.EscapeScalars | server/export-for-supabase-clean.js:55-57 | NULL, TRUE/FALSE, and numbers unquoted |
| SupabaseExport.ReplaceFirst | server/export-for-supabase-clean.js:59 | the length is kept and other characters are untouched |
| SupabaseExport.ReplaceFirstAt | server/export-for-supabase-clean.js:59 | only the first occurrence changes |
| SupabaseExport.DateText | server/export-for-supabase-clean.js:59 | at most 19 characters, each the date's own unless it is a T |
| SupabaseExport.DateTextAt | server/export-for-supabase-clean.js:59 | the date text is `YYYY-MM-DD HH:MM:SS` |
| SupabaseExport.DateLiteral | server/export-for-supabase-clean.js:58-60 | a date becomes its first 19 characters, quoted, with a space for the T |
| SupabaseExport.Hex | server/export-for-supabase-clean.js:65 | two hex digits per byte |
| SupabaseExport.HexRoundTrip | server/export-for-supabase-clean.js:64-66 | the hex text reads back as the bytes |
| SupabaseExport.ByteaLiteral | server/export-for-supabase-clean.js:64-66 | a buffer becomes `'\x` + hex + `'`, which reads back as the bytes |
| SupabaseExport.DefaultClause | server/export-for-supabase-clean.js:135-144 | no DEFAULT exactly when the default is NULL |
| SupabaseExport.NumericText | server/export-for-supabase-clean.js:139 | (predicate, no contract of its own) `!isNaN` of the text by the JavaScript string-to-number grammar; DefaultDigits, DefaultWord and DefaultEmpty exhibit both outcomes |
| SupabaseExport.ColumnType | server/export-for-supabase-clean.js:112-120 | convertType's answer, except that a bare NUMERIC with a precision becomes `NUMERIC(p,s)` with NUMERIC_PRECISION and NUMERIC_SCALE (0 when NULL) written in decimal |
| SupabaseExport.ColumnTypeIgnoresLength | server/export-for-supabase-clean.js:115-117 | CHARACTER_MAXIMUM_LENGTH never changes the type |
| SupabaseExport.DefineColumn | server/export-for-supabase-clean.js:108-147 | the appends build the column's definition; serial iff EXTRA mentions auto_increment |
| SupabaseExport.ColumnDefinition | server/export-for-supabase-clean.js:108-147 | the quoted column name, then exactly SERIAL PRIMARY KEY for an auto-increment column; otherwise the column type, NOT NULL iff IS_NULLABLE is "NO", then the DEFAULT clause |
| SupabaseExport.Definitions | server/export-for-supabase-clean.js:105-148 | one definition per column |
| SupabaseExport.DefinitionsAt | server/export-for-supabase-clean.js:147 | definition i is that of column i |
| SupabaseExport.AnySerialSome | server/export-for-supabase-clean.js:123-125 | hasPrimaryKey iff some column is auto-increment |
| SupabaseExport.BuildColumnDefs | server/export-for-supabase-clean.js:105-148 | the loop yields the definitions in column order and whether any column is serial |
| SupabaseExport.CreateTable | server/export-for-supabase-clean.js:102-150 | `CREATE TABLE "t" (` opens the statement and `);` plus a blank line closes it |
| SupabaseExport.InsertStatement | server/export-for-supabase-clean.js:170-176 | `INSERT INTO "t" (` opens the statement and `);` plus a newline closes it |
| SupabaseExport.SerialIgnoresAttributes | server/export-for-supabase-clean.js:123-125 | an auto-increment column is SERIAL PRIMARY KEY whatever its type, nullability and default |
| SupabaseExport.DefaultTimestamp | server/export-for-supabase-clean.js:137-138 | both timestamp spellings become DEFAULT CURRENT_TIMESTAMP |
| SupabaseExport.DefaultDigits | server/export-for-supabase-clean.js:139-140 | a numeric default is unquoted |
| SupabaseExport.DefaultWord | server/export-for-supabase-clean.js:141-142 | a word default is quoted |
| SupabaseExport.DefaultEmpty | server/export-for-supabase-clean.js:135-140 | an empty default counts as a number, so nothing follows DEFAULT |
| Random.RandomBelow | server/controllers/gameController.js:134 | `Math.floor(Math.random() * n)` lies in [0, n) |
| Text.NatToStringInjective | server/config/database.js:52 | distinct placeholder numbers are rendered differently |

## Left out

- HTTP: Express routes, `req`/`res` handling and status codes. A handler's outcome datatype stands for its JSON reply.
- Passwords: bcrypt hashing, `loginPlayer` and the password column. Registration keeps only the name checks and the seed values.
- Reads and admin operations outside the rules engine: `createPlayer`, `getPlayer`, the list getters, `setPlayerMoney`, `setPlayerAdmin`, `selectStarter` and `challengeGym`.
- The pokemons admin table's other operations (`getAllPokemons`, `createPokemon`, `deletePokemon`): they only pass a statement through.
- Database infrastructure: connection pools, the MySQL and PostgreSQL drivers, and the DDL and ALTER migrations of `initGameTables`. The schema appears only as the `Valid()` invariant.
- Concurrency: every operation, and each transaction, is one atomic step. Races and isolation levels are not modelled.
- Randomness and clocks: `Math.random()` and `Date.now()` are parameters with range preconditions.
- Floating point: reals stand in for JavaScript numbers. `parseFloat` of a catch-rate text is an input (`Encounter.RateText`), not a parser.
- Integer widths: the INT columns are unbounded here, so 32-bit overflow of money or counters is not modelled.
- The PokeAPI request of the growth-rate service: its outcome is a parameter.
- The export script's MySQL connection, table listing, row batching, progress output and file writing. Its INSERT and CREATE TABLE texts are assembled, but not the loop over tables.
- SupabaseExport.Escape: numbers and dates arrive as their JavaScript renderings (`String(n)`, `toISOString()`), which are inputs.
- SupabaseExport.ConvertType: `toLowerCase` and the `/i` flag are modelled as ASCII case folding only.
- SupabaseExport.NumericText: `!isNaN` on a default is modelled by the JavaScript string-to-number grammar over the trimmed text. Only string defaults are considered.
- The client's attack and gym handlers, the battle log, toasts, reloads and every other React view and component. Only the catch counter and the experience bar's target are modelled.
- GameStore.Store.SwitchMainPokemon: the displaced party row is any one of the player's rows, since `LIMIT 1` without an order is unspecified.
- GameStore.Store.MigrateExtraPartyToStorage: the rows are moved in an unspecified order, so only the set of new storage rows is fixed, not which id each one gets.
- Leaderboard.Top: rows that tie on all three keys come in an order SQL leaves open. Only the ranking and the choice of rows up to ties are stated.
- GameController.CatchPokemon: ids are numbers. If the client sends a ball id as text, the strict-equality lookup of the ball's name fails after the ball is spent; that failure is not modelled.
- GameController.SignupCheck: the password length counts characters, not UTF-16 code units.
- GameController.RegisterPlayer: the message of the 500 reply for a name too long for its column is not modelled.
- GameStore.Store.RegisterPlayer: the case-insensitive collation of players.name is folded as ASCII case only; accent folding and the rest of the Unicode collation rules are not modelled. The 50-character limit counts characters. A name too long for its column is taken to be refused before an id is allocated.
- GameStore.Store: the AUTO_INCREMENT counters of player_items, player_badges, player_pokedex and special_badges are not modelled, so ids used up by failed INSERTs into those tables are not tracked.
- GameStore.Store: the store follows MySQL. On PostgreSQL the gameModel.js callers get no insertId (`PgQuery.GameModelInsertId`), so the starter-ball INSERT of registration gets no player id; that run is not modelled.
- GameController.BuyItem: quantities are integers; a fractional quantity from JSON is not modelled.
- Encounter.Explore: the sprite URLs and the type fields of the wild creature are not modelled.
