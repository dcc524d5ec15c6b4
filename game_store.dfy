/**
 * The tables of the game server and the operations of
 * server/models/gameModel.js that read and write them, modelled as one
 * in-memory store. Each exported function of gameModel.js is one method here,
 * and each runs as one atomic step.
 *
 * Rows are keyed as the schema keys them: players, party and storage rows by
 * their AUTO_INCREMENT id; item rows by the unique key (player_id,
 * pokeball_type_id), badges by (player_id, gym_id) and special badges by
 * (player_id, badge_type), so those unique keys hold by construction. Pokedex
 * rows are a sequence, so their unique key (player_id, pokemon_id) is an
 * invariant proved here. Foreign keys are part of the invariant too, and an
 * insert that would break one fails as the database would make it fail.
 */
module GameStore {
  import opened Wrappers
  import opened Progression
  import Leaderboard
  import Text

  /** A creature as a party or storage row records it. */
  datatype Creature = Creature(speciesId: int, name: string, sprite: string, level: int, hp: int, maxHp: int, attack: int)

  /** The creature object handed to addToParty, addToStorage and addToPokedex; `nameEn` "" stands for a missing name_en. */
  datatype Capture = Capture(mon: Creature, nameEn: string)

  /** The party table keeps experience and a position; the storage table has neither. */
  datatype PartyRow = PartyRow(playerId: nat, mon: Creature, exp: int, position: int)
  datatype StorageRow = StorageRow(playerId: nat, mon: Creature)

  datatype Player = Player(name: string, money: int, pokemonCaught: int, gymsDefeated: int)

  datatype PokedexRow = PokedexRow(playerId: nat, speciesId: int, name: string, nameEn: string, sprite: string, totalCaught: int)

  datatype BallType = BallType(name: string, catchRate: real, price: int)

  datatype Gym = Gym(name: string, leader: string, speciesId: int, pokemonName: string, level: int, hp: int, attack: int, rewardMoney: int, badgeName: string)

  /** The seeded pokeball_types rows. */
  function SeedBallTypes(): map<nat, BallType> {
    map[1 := BallType("精灵球", 0.30, 100),
        2 := BallType("超级球", 0.50, 300),
        3 := BallType("高级球", 0.70, 500),
        4 := BallType("大师球", 1.00, 10000)]
  }

  /** The seeded gyms rows (sprite URLs left out). */
  function SeedGyms(): map<nat, Gym> {
    map[1 := Gym("岩石道馆", "小刚", 74, "geodude", 15, 80, 20, 500, "灰色徽章"),
        2 := Gym("水系道馆", "小霞", 120, "staryu", 20, 100, 25, 800, "蓝色徽章"),
        3 := Gym("电系道馆", "马志士", 25, "pikachu", 25, 120, 30, 1000, "橙色徽章")]
  }

  /** Registration seeds: money, the ball type given and how many. */
  const StartingMoney := 1000
  const StarterBallType := 1
  const StarterBalls := 5

  /** players.name is VARCHAR(50). */
  const NameLimit := 50

  /** player_party.exp DEFAULT 0: a row inserted without exp starts at 0. */
  const DefaultExp := 0

  /** The only party position used since the party holds one creature. */
  const MainPosition := 1

  /** The full-pokedex milestone: the species count, its badge type and its reward. */
  const FullPokedexTotal := 1025
  const FullPokedexBadge := "full_pokedex"
  const FullPokedexReward := 10000

  // ---------------------------------------------------------------------
  // Schema constraints, stated over table values
  // ---------------------------------------------------------------------

  /** Every id was handed out by the AUTO_INCREMENT counter. */
  predicate KeysBelow<V>(m: map<nat, V>, next: nat) {
    forall id :: id in m ==> id < next
  }

  predicate PartyOwned(party: map<nat, PartyRow>, owners: set<nat>) {
    forall id :: id in party ==> party[id].playerId in owners
  }

  predicate StorageOwned(storage: map<nat, StorageRow>, owners: set<nat>) {
    forall id :: id in storage ==> storage[id].playerId in owners
  }

  predicate ItemsOwned(items: map<(nat, nat), int>, owners: set<nat>, balls: set<nat>) {
    forall k :: k in items ==> k.0 in owners && k.1 in balls
  }

  predicate BadgesOwned(badges: set<(nat, nat)>, owners: set<nat>, gyms: set<nat>) {
    forall b :: b in badges ==> b.0 in owners && b.1 in gyms
  }

  predicate PokedexOwned(rows: seq<PokedexRow>, owners: set<nat>) {
    forall i :: 0 <= i < |rows| ==> rows[i].playerId in owners
  }

  predicate SpecialOwned(special: set<(nat, string)>, owners: set<nat>) {
    forall b :: b in special ==> b.0 in owners
  }

  /** UNIQUE KEY unique_position (player_id, position). */
  predicate PositionsUnique(party: map<nat, PartyRow>) {
    forall i, j :: i in party && j in party && i != j && party[i].playerId == party[j].playerId
      ==> party[i].position != party[j].position
  }

  /** UNIQUE KEY unique_pokedex_entry (player_id, pokemon_id). */
  predicate PokedexUnique(rows: seq<PokedexRow>) {
    forall i, j :: 0 <= i < j < |rows|
      ==> !(rows[i].playerId == rows[j].playerId && rows[i].speciesId == rows[j].speciesId)
  }

  /** Names equal under the case-insensitive collation of players.name (folded here as ASCII). */
  predicate SameName(a: string, b: string) {
    Text.LowerStr(a) == Text.LowerStr(b)
  }

  /** players.name is UNIQUE under its collation. */
  predicate NamesUnique(players: map<nat, Player>) {
    forall i, j :: i in players && j in players && i != j ==> !SameName(players[i].name, players[j].name)
  }

  /** The game's rule that a player fields at most one creature. */
  predicate OnePerPlayer(party: map<nat, PartyRow>) {
    forall i, j :: i in party && j in party && party[i].playerId == party[j].playerId ==> i == j
  }

  /** The player's party row ids. */
  function PartyOf(party: map<nat, PartyRow>, player: nat): set<nat> {
    set id | id in party && party[id].playerId == player
  }

  /** The player's party rows at a position above 1, left over from when a party held six creatures. */
  function ExtraParty(party: map<nat, PartyRow>, player: nat): set<nat> {
    set id | id in party && party[id].playerId == player && party[id].position > MainPosition
  }

  /** The player's storage row ids. */
  function StorageOf(storage: map<nat, StorageRow>, player: nat): set<nat> {
    set id | id in storage && storage[id].playerId == player
  }

  // ---------------------------------------------------------------------
  // Pokedex arithmetic
  // ---------------------------------------------------------------------

  /** The pokedex row of (player, species), if there is one. */
  function FindEntry(rows: seq<PokedexRow>, player: nat, species: int): (r: Option<nat>)
    ensures r.Some? ==> r.value < |rows| && rows[r.value].playerId == player && rows[r.value].speciesId == species
    ensures r.None? ==> forall i :: 0 <= i < |rows| ==> !(rows[i].playerId == player && rows[i].speciesId == species)
  {
    if rows == [] then None
    else if rows[|rows| - 1].playerId == player && rows[|rows| - 1].speciesId == species then Some(|rows| - 1)
    else FindEntry(rows[..|rows| - 1], player, species)
  }

  /** COUNT(*) of the player's pokedex rows. */
  function Discovered(rows: seq<PokedexRow>, player: nat): (n: nat)
    ensures n <= |rows|
  {
    if rows == [] then 0
    else Discovered(rows[..|rows| - 1], player) + (if rows[|rows| - 1].playerId == player then 1 else 0)
  }

  /** SUM(total_caught) of the player's pokedex rows. */
  function CaughtSum(rows: seq<PokedexRow>, player: nat): int {
    if rows == [] then 0
    else CaughtSum(rows[..|rows| - 1], player) + (if rows[|rows| - 1].playerId == player then rows[|rows| - 1].totalCaught else 0)
  }

  datatype PokedexStats = PokedexStats(discovered: nat, total: nat, totalCaught: int)

  /** getPokedexStats: the counts over the player's rows, against the full 1025 species. */
  function GetPokedexStats(rows: seq<PokedexRow>, player: nat): (r: PokedexStats)
    ensures r.total == FullPokedexTotal && r.discovered <= |rows|
    ensures r.discovered == 0 <==> forall i :: 0 <= i < |rows| ==> rows[i].playerId != player
  {
    DiscoveredZero(rows, player);
    PokedexStats(Discovered(rows, player), FullPokedexTotal, CaughtSum(rows, player))
  }

  lemma {:induction false} DiscoveredZero(rows: seq<PokedexRow>, player: nat)
    ensures Discovered(rows, player) == 0 <==> forall i :: 0 <= i < |rows| ==> rows[i].playerId != player
  {
    if rows != [] {
      DiscoveredZero(rows[..|rows| - 1], player);
      assert forall i :: 0 <= i < |rows| - 1 ==> rows[..|rows| - 1][i] == rows[i];
    }
  }

  /** A new row for the player counts once more as discovered and adds its catches; other players are unaffected. */
  lemma StatsAfterAppend(rows: seq<PokedexRow>, row: PokedexRow)
    ensures Discovered(rows + [row], row.playerId) == Discovered(rows, row.playerId) + 1
    ensures CaughtSum(rows + [row], row.playerId) == CaughtSum(rows, row.playerId) + row.totalCaught
    ensures forall q :: q != row.playerId ==> Discovered(rows + [row], q) == Discovered(rows, q)
  {
    assert (rows + [row])[..|rows + [row]| - 1] == rows;
  }

  /** Counting another catch of a known species changes the owner's sum by one and no count of species. */
  lemma {:induction false} StatsAfterIncrement(rows: seq<PokedexRow>, i: nat, q: nat)
    requires i < |rows|
    ensures Discovered(rows[i := rows[i].(totalCaught := rows[i].totalCaught + 1)], q) == Discovered(rows, q)
    ensures CaughtSum(rows[i := rows[i].(totalCaught := rows[i].totalCaught + 1)], q)
         == CaughtSum(rows, q) + (if rows[i].playerId == q then 1 else 0)
    decreases |rows|
  {
    var updated := rows[i := rows[i].(totalCaught := rows[i].totalCaught + 1)];
    var last := |rows| - 1;
    if i < last {
      assert updated[..last] == rows[..last][i := rows[i].(totalCaught := rows[i].totalCaught + 1)];
      StatsAfterIncrement(rows[..last], i, q);
    } else {
      assert updated[..last] == rows[..last];
    }
  }

  // ---------------------------------------------------------------------
  // The bookkeeping every catch does: players, pokedex and special badges
  // ---------------------------------------------------------------------

  datatype Books = Books(players: map<nat, Player>, pokedex: seq<PokedexRow>, specialBadges: set<(nat, string)>)

  /** UPDATE players SET money = money + amount; no row changes for an unknown id. */
  function Credit(players: map<nat, Player>, player: nat, amount: int): (r: map<nat, Player>)
    ensures r.Keys == players.Keys
    ensures forall q :: q in players ==> r[q].name == players[q].name
    ensures forall q :: q in players ==> r[q].pokemonCaught == players[q].pokemonCaught && r[q].gymsDefeated == players[q].gymsDefeated
    ensures forall q :: q in players ==> r[q].money == players[q].money + (if q == player then amount else 0)
  {
    if player in players then players[player := players[player].(money := players[player].money + amount)] else players
  }

  /** UPDATE players SET pokemon_caught = pokemon_caught + 1. */
  function CountCatch(players: map<nat, Player>, player: nat): (r: map<nat, Player>)
    ensures r.Keys == players.Keys
    ensures forall q :: q in players ==> r[q].name == players[q].name && r[q].money == players[q].money
    ensures forall q :: q in players ==> r[q].gymsDefeated == players[q].gymsDefeated
    ensures forall q :: q in players ==> r[q].pokemonCaught == players[q].pokemonCaught + (if q == player then 1 else 0)
  {
    if player in players then players[player := players[player].(pokemonCaught := players[player].pokemonCaught + 1)] else players
  }

  /** The row addToPokedex inserts: name_en falls back to the name. */
  function NewEntry(player: nat, c: Capture): (row: PokedexRow)
    ensures row.playerId == player && row.speciesId == c.mon.speciesId && row.totalCaught == 1
    ensures row.nameEn == (if c.nameEn == "" then c.mon.name else c.nameEn)
  {
    PokedexRow(player, c.mon.speciesId, c.mon.name, if c.nameEn == "" then c.mon.name else c.nameEn, c.mon.sprite, 1)
  }

  /** checkAndAwardFullPokedex: the badge and its reward, once the player has discovered every species. */
  function AwardFullPokedex(b: Books, player: nat): (r: Books)
    ensures r.pokedex == b.pokedex
    ensures (player, FullPokedexBadge) in r.specialBadges <==>
            (player, FullPokedexBadge) in b.specialBadges || (Discovered(b.pokedex, player) >= FullPokedexTotal && player in b.players)
  {
    if Discovered(b.pokedex, player) >= FullPokedexTotal && (player, FullPokedexBadge) !in b.specialBadges && player in b.players
    then Books(Credit(b.players, player, FullPokedexReward), b.pokedex, b.specialBadges + {(player, FullPokedexBadge)})
    else b
  }

  /**
   * addToPokedex: another catch of a known species increments its count; a
   * new species is inserted with a count of 1 and may complete the pokedex.
   * The insert for an unknown player fails on the foreign key and the error
   * is swallowed, so nothing changes.
   */
  function RecordCatch(b: Books, player: nat, c: Capture): (r: Books)
    ensures r.players.Keys == b.players.Keys
    ensures forall q :: q in b.players ==> r.players[q].name == b.players[q].name
    ensures |b.pokedex| <= |r.pokedex| <= |b.pokedex| + 1
    ensures b.specialBadges <= r.specialBadges
  {
    match FindEntry(b.pokedex, player, c.mon.speciesId)
    case Some(i) => b.(pokedex := b.pokedex[i := b.pokedex[i].(totalCaught := b.pokedex[i].totalCaught + 1)])
    case None => if player !in b.players then b else AwardFullPokedex(b.(pokedex := b.pokedex + [NewEntry(player, c)]), player)
  }

  /** The schema constraints that the bookkeeping touches. */
  predicate BooksValid(b: Books) {
    PokedexOwned(b.pokedex, b.players.Keys) && SpecialOwned(b.specialBadges, b.players.Keys)
    && PokedexUnique(b.pokedex) && NamesUnique(b.players)
  }

  /** Every pokedex row records at least one catch. */
  predicate PokedexCounted(rows: seq<PokedexRow>) {
    forall i :: 0 <= i < |rows| ==> rows[i].totalCaught >= 1
  }

  /** Counting another catch of a known species keeps the pokedex constraints. */
  lemma IncrementKeeps(rows: seq<PokedexRow>, i: nat, owners: set<nat>)
    requires i < |rows|
    ensures PokedexOwned(rows, owners) ==> PokedexOwned(rows[i := rows[i].(totalCaught := rows[i].totalCaught + 1)], owners)
    ensures PokedexUnique(rows) ==> PokedexUnique(rows[i := rows[i].(totalCaught := rows[i].totalCaught + 1)])
    ensures PokedexCounted(rows) ==> PokedexCounted(rows[i := rows[i].(totalCaught := rows[i].totalCaught + 1)])
  {
  }

  /** Appending the row of a species the player has not discovered keeps the pokedex constraints. */
  lemma AppendKeeps(rows: seq<PokedexRow>, row: PokedexRow, owners: set<nat>)
    requires forall i :: 0 <= i < |rows| ==> !(rows[i].playerId == row.playerId && rows[i].speciesId == row.speciesId)
    requires row.playerId in owners && row.totalCaught >= 1
    ensures PokedexOwned(rows, owners) ==> PokedexOwned(rows + [row], owners)
    ensures PokedexUnique(rows) ==> PokedexUnique(rows + [row])
    ensures PokedexCounted(rows) ==> PokedexCounted(rows + [row])
  {
  }

  /** The award changes money only. */
  lemma AwardKeeps(b: Books, player: nat)
    requires BooksValid(b)
    ensures BooksValid(AwardFullPokedex(b, player))
    ensures AwardFullPokedex(b, player).players.Keys == b.players.Keys
    ensures forall q :: q in b.players ==> AwardFullPokedex(b, player).players[q].(money := 0) == b.players[q].(money := 0)
  {
    var r := AwardFullPokedex(b, player);
    if r != b {
      assert forall q :: q in b.players ==> r.players[q].(money := 0) == b.players[q].(money := 0);
    }
  }

  /** Recording a catch keeps the constraints; every field of the player table but money stays, and no player is added. */
  lemma RecordCatchKeeps(b: Books, player: nat, c: Capture)
    requires BooksValid(b)
    ensures BooksValid(RecordCatch(b, player, c))
    ensures RecordCatch(b, player, c).players.Keys == b.players.Keys
    ensures forall q :: q in b.players ==> RecordCatch(b, player, c).players[q].(money := 0) == b.players[q].(money := 0)
    ensures PokedexCounted(b.pokedex) ==> PokedexCounted(RecordCatch(b, player, c).pokedex)
  {
    match FindEntry(b.pokedex, player, c.mon.speciesId)
    case Some(i) =>
      IncrementKeeps(b.pokedex, i, b.players.Keys);
    case None =>
      if player in b.players {
        AppendKeeps(b.pokedex, NewEntry(player, c), b.players.Keys);
        AwardKeeps(b.(pokedex := b.pokedex + [NewEntry(player, c)]), player);
      }
  }

  /** A catch by a registered player adds exactly one to their total caught; a new species also one to their discovered count. */
  lemma RecordCatchCounts(b: Books, player: nat, c: Capture)
    requires player in b.players
    ensures CaughtSum(RecordCatch(b, player, c).pokedex, player) == CaughtSum(b.pokedex, player) + 1
    ensures Discovered(RecordCatch(b, player, c).pokedex, player)
         == Discovered(b.pokedex, player) + (if FindEntry(b.pokedex, player, c.mon.speciesId).None? then 1 else 0)
  {
    var after := RecordCatch(b, player, c).pokedex;
    match FindEntry(b.pokedex, player, c.mon.speciesId)
    case Some(i) =>
      assert after == b.pokedex[i := b.pokedex[i].(totalCaught := b.pokedex[i].totalCaught + 1)];
      StatsAfterIncrement(b.pokedex, i, player);
    case None =>
      var row := NewEntry(player, c);
      assert after == b.pokedex + [row];
      StatsAfterAppend(b.pokedex, row);
  }

  /** The full-pokedex reward is paid at most once: a player holding the badge gains no money from a catch. */
  lemma RewardAtMostOnce(b: Books, player: nat, c: Capture)
    requires (player, FullPokedexBadge) in b.specialBadges
    ensures RecordCatch(b, player, c).players == b.players
    ensures RecordCatch(b, player, c).specialBadges == b.specialBadges
  {
  }

  /** The catch that completes the pokedex earns the badge and 10000 money. */
  lemma RewardOnCompletion(b: Books, player: nat, c: Capture)
    requires player in b.players && (player, FullPokedexBadge) !in b.specialBadges
    requires FindEntry(b.pokedex, player, c.mon.speciesId).None?
    requires Discovered(b.pokedex, player) + 1 >= FullPokedexTotal
    ensures (player, FullPokedexBadge) in RecordCatch(b, player, c).specialBadges
    ensures RecordCatch(b, player, c).players[player].money == b.players[player].money + FullPokedexReward
  {
    StatsAfterAppend(b.pokedex, NewEntry(player, c));
  }

  /** Counting a catch keeps the constraints of the bookkeeping. */
  lemma CountCatchKeeps(b: Books, player: nat)
    requires BooksValid(b)
    ensures BooksValid(b.(players := CountCatch(b.players, player)))
  {
  }

  /** A player with a fresh id and a name not yet taken keeps the constraints of the bookkeeping. */
  lemma NewPlayerKeeps(b: Books, id: nat, p: Player)
    requires BooksValid(b) && id !in b.players
    requires forall q :: q in b.players ==> !SameName(b.players[q].name, p.name)
    ensures BooksValid(b.(players := b.players[id := p]))
  {
  }

  /** The foreign keys into players survive a new player. */
  lemma OwnersGrow(owners: set<nat>, more: set<nat>, party: map<nat, PartyRow>, storage: map<nat, StorageRow>,
                   items: map<(nat, nat), int>, badges: set<(nat, nat)>, balls: set<nat>, gyms: set<nat>)
    requires owners <= more
    ensures PartyOwned(party, owners) ==> PartyOwned(party, more)
    ensures StorageOwned(storage, owners) ==> StorageOwned(storage, more)
    ensures ItemsOwned(items, owners, balls) ==> ItemsOwned(items, more, balls)
    ensures BadgesOwned(badges, owners, gyms) ==> BadgesOwned(badges, more, gyms)
  {
  }

  /** A party row for a player without one keeps ownership and position uniqueness, and the one-creature rule. */
  lemma FirstPartyRowKeeps(party: map<nat, PartyRow>, id: nat, row: PartyRow, owners: set<nat>)
    requires PartyOwned(party, owners) && PositionsUnique(party) && row.playerId in owners && id !in party
    requires forall q :: q in party ==> party[q].playerId != row.playerId
    ensures PartyOwned(party[id := row], owners) && PositionsUnique(party[id := row])
    ensures OnePerPlayer(party) ==> OnePerPlayer(party[id := row])
  {
  }

  /** UPDATE players SET gyms_defeated = gyms_defeated + 1. */
  function CountGym(players: map<nat, Player>, player: nat): (r: map<nat, Player>)
    ensures r.Keys == players.Keys
    ensures forall q :: q in players ==> r[q].name == players[q].name && r[q].money == players[q].money
    ensures forall q :: q in players ==> r[q].pokemonCaught == players[q].pokemonCaught
    ensures forall q :: q in players ==> r[q].gymsDefeated == players[q].gymsDefeated + (if q == player then 1 else 0)
  {
    if player in players then players[player := players[player].(gymsDefeated := players[player].gymsDefeated + 1)] else players
  }

  /** The quantity of an item row after `INSERT ... ON DUPLICATE KEY UPDATE quantity = quantity + qty`. */
  function Restocked(items: map<(nat, nat), int>, key: (nat, nat), qty: int): (r: map<(nat, nat), int>)
    ensures r.Keys == items.Keys + {key}
    ensures r[key] == (if key in items then items[key] else 0) + qty
    ensures forall k :: k in items && k != key ==> r[k] == items[k]
  {
    items[key := (if key in items then items[key] else 0) + qty]
  }

  /** No item row holds a negative quantity. */
  predicate NonNegativeStock(items: map<(nat, nat), int>) {
    forall k :: k in items ==> items[k] >= 0
  }

  /** Writing a non-negative quantity keeps every quantity non-negative. */
  lemma StockWrite(items: map<(nat, nat), int>, key: (nat, nat), v: int)
    requires v >= 0
    ensures NonNegativeStock(items) ==> NonNegativeStock(items[key := v])
  {
  }

  /** An item row whose key already exists, or whose player and ball type exist, keeps the foreign keys. */
  lemma ItemKeeps(items: map<(nat, nat), int>, key: (nat, nat), v: int, owners: set<nat>, balls: set<nat>)
    requires ItemsOwned(items, owners, balls)
    requires key in items || (key.0 in owners && key.1 in balls)
    ensures ItemsOwned(items[key := v], owners, balls)
  {
  }

  /** Changing the money and counters of players keeps every constraint that mentions players. */
  lemma PlayerFieldsKeep(b: Books, players: map<nat, Player>)
    requires BooksValid(b) && players.Keys == b.players.Keys
    requires forall q :: q in players ==> players[q].name == b.players[q].name
    ensures BooksValid(b.(players := players))
  {
  }

  /** Rewriting a party row's creature and experience, with the same owner and position, keeps the party constraints. */
  lemma RowUpdateKeeps(party: map<nat, PartyRow>, id: nat, row: PartyRow, owners: set<nat>)
    requires id in party && row.playerId == party[id].playerId && row.position == party[id].position
    ensures PartyOwned(party, owners) ==> PartyOwned(party[id := row], owners)
    ensures PositionsUnique(party) ==> PositionsUnique(party[id := row])
    ensures OnePerPlayer(party) ==> OnePerPlayer(party[id := row])
  {
  }

  /** A party row placed where its owner has no row at that position keeps the party constraints. */
  lemma FreePositionKeeps(party: map<nat, PartyRow>, id: nat, row: PartyRow, owners: set<nat>)
    requires PartyOwned(party, owners) && PositionsUnique(party) && row.playerId in owners && id !in party
    requires forall q :: q in party && party[q].playerId == row.playerId ==> party[q].position != row.position
    ensures PartyOwned(party[id := row], owners) && PositionsUnique(party[id := row])
  {
  }

  /** A row inserted for a player joins that player's party rows. */
  lemma PartyOfInsert(party: map<nat, PartyRow>, id: nat, row: PartyRow)
    ensures PartyOf(party[id := row], row.playerId) == PartyOf(party, row.playerId) + {id}
    ensures OnePerPlayer(party) && PartyOf(party, row.playerId) == {} ==> OnePerPlayer(party[id := row])
  {
    if OnePerPlayer(party) && PartyOf(party, row.playerId) == {} {
      assert forall q :: q in party ==> party[q].playerId != row.playerId by {
        forall q | q in party ensures party[q].playerId != row.playerId {
          assert party[q].playerId == row.playerId ==> q in PartyOf(party, row.playerId);
        }
      }
    }
  }

  /** The player's storage loses the chosen row and, when a creature was displaced, gains its new row. */
  lemma SwitchStorageCount(before: map<nat, StorageRow>, after: map<nat, StorageRow>, player: nat, chosen: nat,
                           moved: bool, newId: nat, mon: Creature)
    requires chosen in before && before[chosen].playerId == player
    requires newId !in before
    requires after == (if moved then before[newId := StorageRow(player, mon)] else before) - {chosen}
    ensures |StorageOf(after, player)| == |StorageOf(before, player)| - (if moved then 0 else 1)
  {
    if moved {
      assert StorageOf(after, player) == StorageOf(before, player) - {chosen} + {newId};
    } else {
      assert StorageOf(after, player) == StorageOf(before, player) - {chosen};
    }
  }

  /** A player's leaderboard row. */
  function EntryOf(id: nat, p: Player): (e: Leaderboard.Entry)
    ensures e.id == id && e.name == p.name && e.money == p.money
    ensures e.pokemonCaught == p.pokemonCaught && e.gymsDefeated == p.gymsDefeated
  {
    Leaderboard.Entry(id, p.name, p.pokemonCaught, p.gymsDefeated, p.money)
  }

  /** Deleting party rows keeps the party constraints. */
  lemma SubPartyKeeps(p: map<nat, PartyRow>, party: map<nat, PartyRow>, owners: set<nat>, next: nat)
    requires forall k :: k in p ==> k in party && p[k] == party[k]
    ensures KeysBelow(party, next) ==> KeysBelow(p, next)
    ensures PartyOwned(party, owners) ==> PartyOwned(p, owners)
    ensures PositionsUnique(party) ==> PositionsUnique(p)
    ensures OnePerPlayer(party) ==> OnePerPlayer(p)
  {
  }

  /**
   * The loop of migrateExtraPartyToStorage: each listed party row, in an
   * unspecified order, is inserted into storage under the next storage id
   * and deleted from the party.
   */
  method CopyToStorage(party: map<nat, PartyRow>, storage: map<nat, StorageRow>, next: nat, player: nat, extra: set<nat>)
    returns (moved: nat, p: map<nat, PartyRow>, st: map<nat, StorageRow>, last: nat, ghost order: seq<nat>)
    requires extra <= party.Keys
    ensures moved == |extra| && |order| == moved && last == next + moved
    ensures p == party - extra
    ensures forall j :: 0 <= j < |order| ==> order[j] in extra
    ensures forall i, j :: 0 <= i < j < |order| ==> order[i] != order[j]
    ensures forall k :: k in st <==> k in storage || next <= k < last
    ensures forall k :: k in storage && !(next <= k < last) ==> st[k] == storage[k]
    ensures forall j :: 0 <= j < moved ==> st[next + j] == StorageRow(player, party[order[j]].mon)
    ensures forall k :: next <= k < last ==> k in st && st[k].playerId == player
    ensures KeysBelow(storage, next) ==> KeysBelow(st, last)
  {
    var todo := extra;
    p, st, last := party, storage, next;
    moved, order := 0, [];
    while todo != {}
      invariant todo <= extra && moved == |extra| - |todo| && |order| == moved
      invariant forall k :: k in p <==> k in party && (k in extra ==> k in todo)
      invariant forall k :: k in p ==> p[k] == party[k]
      invariant forall j :: 0 <= j < |order| ==> order[j] in extra && order[j] !in todo
      invariant forall i, j :: 0 <= i < j < |order| ==> order[i] != order[j]
      invariant last == next + moved
      invariant forall k :: k in st <==> k in storage || next <= k < last
      invariant forall k :: k in storage && !(next <= k < last) ==> st[k] == storage[k]
      invariant forall j :: 0 <= j < moved ==> st[next + j] == StorageRow(player, party[order[j]].mon)
      invariant forall k :: next <= k < last ==> k in st && st[k].playerId == player
      decreases |todo|
    {
      var id :| id in todo;
      ghost var before := order;
      st := st[last := StorageRow(player, p[id].mon)];
      last := last + 1;
      p := p - {id};
      todo := todo - {id};
      order := order + [id];
      assert forall j :: 0 <= j < |before| ==> order[j] == before[j];
      moved := moved + 1;
    }
    assert p == party - extra;
  }

  /** What the insert-style operations report. */
  datatype Insert = Inserted(id: nat) | PartyFull | UnknownPlayer

  datatype Purchase = Bought | UnknownBallType | NoSuchPlayer | InsufficientFunds

  datatype Switch = Switched(partyId: nat) | NotInStorage | PositionTaken

  datatype Registration = Registered(id: nat) | DuplicateName | NameTooLong

  class Store {
    var players: map<nat, Player>
    var nextPlayerId: nat
    var party: map<nat, PartyRow>
    var nextPartyId: nat
    var storage: map<nat, StorageRow>
    var nextStorageId: nat
    /** player_items: quantity per (player_id, pokeball_type_id). */
    var items: map<(nat, nat), int>
    /** player_badges: (player_id, gym_id). */
    var badges: set<(nat, nat)>
    var pokedex: seq<PokedexRow>
    /** special_badges: (player_id, badge_type). */
    var specialBadges: set<(nat, string)>
    const ballTypes: map<nat, BallType> := SeedBallTypes()
    const gyms: map<nat, Gym> := SeedGyms()

    /** The schema: ids below their AUTO_INCREMENT counters, foreign keys and unique keys. */
    ghost predicate Valid()
      reads this
    {
      && KeysBelow(players, nextPlayerId) && KeysBelow(party, nextPartyId) && KeysBelow(storage, nextStorageId)
      && PartyOwned(party, players.Keys) && StorageOwned(storage, players.Keys)
      && ItemsOwned(items, players.Keys, ballTypes.Keys) && BadgesOwned(badges, players.Keys, gyms.Keys)
      && PositionsUnique(party)
      && BooksValid(Books(players, pokedex, specialBadges))
    }

    /** No item stock below zero. */
    ghost predicate StockNonNegative()
      reads this
    {
      NonNegativeStock(items)
    }

    predicate HasParty(player: nat)
      reads this
    {
      exists id :: id in party && party[id].playerId == player
    }

    /** An empty database holding the seeded catalogs. */
    constructor ()
      ensures Valid() && OnePerPlayer(party) && StockNonNegative() && PokedexCounted(pokedex)
      ensures players == map[] && party == map[] && storage == map[] && items == map[]
      ensures badges == {} && pokedex == [] && specialBadges == {}
    {
      players, nextPlayerId := map[], 1;
      party, nextPartyId := map[], 1;
      storage, nextStorageId := map[], 1;
      items, badges, pokedex, specialBadges := map[], {}, [], {};
    }

    /**
     * registerPlayer: a new player with the seeded money and counters and five
     * basic balls. A name longer than the VARCHAR(50) column is refused
     * before anything is written; a name taken under the column's collation
     * is refused by the UNIQUE constraint, after the failed INSERT has used
     * up its AUTO_INCREMENT value.
     */
    method RegisterPlayer(name: string) returns (r: Registration)
      requires Valid()
      modifies this
      ensures Valid()
      ensures r == NameTooLong <==> |name| > NameLimit
      ensures r == DuplicateName <==> |name| <= NameLimit && exists id :: id in old(players) && SameName(old(players)[id].name, name)
      ensures r == NameTooLong ==> unchanged(this)
      ensures r == DuplicateName ==> players == old(players) && items == old(items) && nextPlayerId == old(nextPlayerId) + 1
      ensures r.Registered? ==>
        && r.id == old(nextPlayerId) && r.id !in old(players)
        && players == old(players)[r.id := Player(name, StartingMoney, 0, 0)]
        && nextPlayerId == old(nextPlayerId) + 1
        && items == old(items)[(r.id, StarterBallType) := StarterBalls]
      ensures party == old(party) && storage == old(storage) && badges == old(badges)
      ensures pokedex == old(pokedex) && specialBadges == old(specialBadges)
      ensures nextPartyId == old(nextPartyId) && nextStorageId == old(nextStorageId)
      ensures old(StockNonNegative()) ==> StockNonNegative()
    {
      if |name| > NameLimit {
        return NameTooLong;
      }
      if exists id :: id in players && SameName(players[id].name, name) {
        SkipPlayerId();
        return DuplicateName;
      }
      var id := nextPlayerId;
      InsertPlayer(Player(name, StartingMoney, 0, 0));
      r := Registered(id);
    }

    /** A failed INSERT into players still uses up its AUTO_INCREMENT value. */
    method SkipPlayerId()
      requires Valid()
      modifies this
      ensures Valid()
      ensures nextPlayerId == old(nextPlayerId) + 1
      ensures players == old(players) && party == old(party) && storage == old(storage) && items == old(items) && badges == old(badges)
      ensures pokedex == old(pokedex) && specialBadges == old(specialBadges)
      ensures nextPartyId == old(nextPartyId) && nextStorageId == old(nextStorageId)
    {
      nextPlayerId := nextPlayerId + 1;
    }

    /** A failed INSERT into player_party still uses up its AUTO_INCREMENT value. */
    method SkipPartyId()
      requires Valid()
      modifies this
      ensures Valid()
      ensures nextPartyId == old(nextPartyId) + 1
      ensures players == old(players) && party == old(party) && storage == old(storage) && items == old(items) && badges == old(badges)
      ensures pokedex == old(pokedex) && specialBadges == old(specialBadges)
      ensures nextPlayerId == old(nextPlayerId) && nextStorageId == old(nextStorageId)
    {
      nextPartyId := nextPartyId + 1;
    }

    /** A failed INSERT into player_storage still uses up its AUTO_INCREMENT value. */
    method SkipStorageId()
      requires Valid()
      modifies this
      ensures Valid()
      ensures nextStorageId == old(nextStorageId) + 1
      ensures players == old(players) && party == old(party) && storage == old(storage) && items == old(items) && badges == old(badges)
      ensures pokedex == old(pokedex) && specialBadges == old(specialBadges)
      ensures nextPlayerId == old(nextPlayerId) && nextPartyId == old(nextPartyId)
    {
      nextStorageId := nextStorageId + 1;
    }

    /** The inserts of registerPlayer: the player row under the next id and its starter balls. */
    method InsertPlayer(p: Player)
      requires Valid() && forall q :: q in players ==> !SameName(players[q].name, p.name)
      modifies this
      ensures Valid()
      ensures old(nextPlayerId) !in old(players)
      ensures players == old(players)[old(nextPlayerId) := p] && nextPlayerId == old(nextPlayerId) + 1
      ensures items == old(items)[(old(nextPlayerId), StarterBallType) := StarterBalls]
      ensures party == old(party) && storage == old(storage) && badges == old(badges)
      ensures pokedex == old(pokedex) && specialBadges == old(specialBadges)
      ensures nextPartyId == old(nextPartyId) && nextStorageId == old(nextStorageId)
      ensures old(StockNonNegative()) ==> StockNonNegative()
    {
      var id := nextPlayerId;
      NewPlayerKeeps(Books(players, pokedex, specialBadges), id, p);
      OwnersGrow(players.Keys, players.Keys + {id}, party, storage, items, badges, ballTypes.Keys, gyms.Keys);
      StockWrite(items, (id, StarterBallType), StarterBalls);
      players := players[id := p];
      nextPlayerId := nextPlayerId + 1;
      items := items[(id, StarterBallType) := StarterBalls];
    }

    /** updatePlayerMoney: adds `amount` (possibly negative) to an existing player's money. */
    method UpdatePlayerMoney(player: nat, amount: int)
      requires Valid()
      modifies this
      ensures Valid()
      ensures players == Credit(old(players), player, amount)
      ensures party == old(party) && storage == old(storage) && items == old(items) && badges == old(badges)
      ensures pokedex == old(pokedex) && specialBadges == old(specialBadges)
      ensures nextPlayerId == old(nextPlayerId) && nextPartyId == old(nextPartyId) && nextStorageId == old(nextStorageId)
    {
      if player in players {
        players := players[player := players[player].(money := players[player].money + amount)];
      }
    }

    /** checkAndAwardFullPokedex, on the store. */
    method CheckAndAwardFullPokedex(player: nat) returns (awarded: bool)
      requires Valid()
      modifies this
      ensures Valid()
      ensures Books(players, pokedex, specialBadges) == AwardFullPokedex(old(Books(players, pokedex, specialBadges)), player)
      ensures awarded <==> old(GetPokedexStats(pokedex, player).discovered) >= FullPokedexTotal
                           && (player, FullPokedexBadge) !in old(specialBadges) && player in old(players)
      ensures party == old(party) && storage == old(storage) && items == old(items) && badges == old(badges)
      ensures nextPlayerId == old(nextPlayerId) && nextPartyId == old(nextPartyId) && nextStorageId == old(nextStorageId)
    {
      var stats := GetPokedexStats(pokedex, player);
      awarded := false;
      if stats.discovered >= stats.total && (player, FullPokedexBadge) !in specialBadges && player in players {
        specialBadges := specialBadges + {(player, FullPokedexBadge)};
        UpdatePlayerMoney(player, FullPokedexReward);
        awarded := true;
      }
    }

    /** addToPokedex, on the store; `isNew` reports a newly discovered species. */
    method AddToPokedex(player: nat, c: Capture) returns (isNew: bool)
      requires Valid()
      modifies this
      ensures Valid()
      ensures Books(players, pokedex, specialBadges) == RecordCatch(old(Books(players, pokedex, specialBadges)), player, c)
      ensures isNew <==> old(FindEntry(pokedex, player, c.mon.speciesId)).None? && player in old(players)
      ensures party == old(party) && storage == old(storage) && items == old(items) && badges == old(badges)
      ensures nextPlayerId == old(nextPlayerId) && nextPartyId == old(nextPartyId) && nextStorageId == old(nextStorageId)
    {
      var found := FindEntry(pokedex, player, c.mon.speciesId);
      if found.Some? {
        CountAgain(found.value);
        return false;
      }
      if player !in players {
        return false;
      }
      AppendEntry(NewEntry(player, c));
      var _ := CheckAndAwardFullPokedex(player);
      isNew := true;
    }

    /** The UPDATE of addToPokedex: one more catch of a species already in the pokedex. */
    method CountAgain(i: nat)
      requires Valid() && i < |pokedex|
      modifies this
      ensures Valid()
      ensures pokedex == old(pokedex)[i := old(pokedex)[i].(totalCaught := old(pokedex)[i].totalCaught + 1)]
      ensures players == old(players) && specialBadges == old(specialBadges)
      ensures party == old(party) && storage == old(storage) && items == old(items) && badges == old(badges)
      ensures nextPlayerId == old(nextPlayerId) && nextPartyId == old(nextPartyId) && nextStorageId == old(nextStorageId)
    {
      IncrementKeeps(pokedex, i, players.Keys);
      pokedex := pokedex[i := pokedex[i].(totalCaught := pokedex[i].totalCaught + 1)];
    }

    /** The INSERT of addToPokedex: the first row of a species for the player. */
    method AppendEntry(row: PokedexRow)
      requires Valid() && row.playerId in players && row.totalCaught >= 1
      requires forall i :: 0 <= i < |pokedex| ==> !(pokedex[i].playerId == row.playerId && pokedex[i].speciesId == row.speciesId)
      modifies this
      ensures Valid()
      ensures pokedex == old(pokedex) + [row]
      ensures players == old(players) && specialBadges == old(specialBadges)
      ensures party == old(party) && storage == old(storage) && items == old(items) && badges == old(badges)
      ensures nextPlayerId == old(nextPlayerId) && nextPartyId == old(nextPartyId) && nextStorageId == old(nextStorageId)
    {
      AppendKeeps(pokedex, row, players.Keys);
      pokedex := pokedex + [row];
    }

    /** The INSERT into player_party for a player without a party row. */
    method InsertFirstPartyRow(row: PartyRow) returns (id: nat)
      requires Valid() && row.playerId in players
      requires forall q :: q in party ==> party[q].playerId != row.playerId
      modifies this
      ensures Valid()
      ensures id == old(nextPartyId) && id !in old(party)
      ensures party == old(party)[id := row] && nextPartyId == old(nextPartyId) + 1
      ensures players == old(players) && storage == old(storage) && items == old(items) && badges == old(badges)
      ensures pokedex == old(pokedex) && specialBadges == old(specialBadges)
      ensures nextPlayerId == old(nextPlayerId) && nextStorageId == old(nextStorageId)
      ensures old(OnePerPlayer(party)) ==> OnePerPlayer(party)
    {
      id := nextPartyId;
      FirstPartyRowKeeps(party, id, row, players.Keys);
      party := party[id := row];
      nextPartyId := nextPartyId + 1;
    }

    /** The INSERT into player_storage. */
    method InsertStorageRow(row: StorageRow) returns (id: nat)
      requires Valid() && row.playerId in players
      modifies this
      ensures Valid()
      ensures id == old(nextStorageId) && id !in old(storage)
      ensures storage == old(storage)[id := row] && nextStorageId == old(nextStorageId) + 1
      ensures players == old(players) && party == old(party) && items == old(items) && badges == old(badges)
      ensures pokedex == old(pokedex) && specialBadges == old(specialBadges)
      ensures nextPlayerId == old(nextPlayerId) && nextPartyId == old(nextPartyId)
    {
      id := nextStorageId;
      storage := storage[id := row];
      nextStorageId := nextStorageId + 1;
    }

    /** UPDATE players SET pokemon_caught = pokemon_caught + 1. */
    method CountCatchOf(player: nat)
      requires Valid()
      modifies this
      ensures Valid()
      ensures players == CountCatch(old(players), player)
      ensures party == old(party) && storage == old(storage) && items == old(items) && badges == old(badges)
      ensures pokedex == old(pokedex) && specialBadges == old(specialBadges)
      ensures nextPlayerId == old(nextPlayerId) && nextPartyId == old(nextPartyId) && nextStorageId == old(nextStorageId)
    {
      CountCatchKeeps(Books(players, pokedex, specialBadges), player);
      players := CountCatch(players, player);
    }

    /**
     * addToParty: refused (null) when the player already has a party row;
     * otherwise the creature becomes the player's party row at position 1
     * with the default experience, the capture counter goes up and the
     * pokedex records the catch. The insert for an unknown player fails on
     * the foreign key after using up its AUTO_INCREMENT value.
     */
    method AddToParty(player: nat, c: Capture) returns (r: Insert)
      requires Valid()
      modifies this
      ensures Valid()
      ensures r == PartyFull <==> old(HasParty(player))
      ensures r == UnknownPlayer <==> !old(HasParty(player)) && player !in old(players)
      ensures r == PartyFull ==> unchanged(this)
      ensures r == UnknownPlayer ==>
        && party == old(party) && nextPartyId == old(nextPartyId) + 1 && players == old(players)
        && pokedex == old(pokedex) && specialBadges == old(specialBadges)
      ensures r.Inserted? ==>
        && r.id == old(nextPartyId) && r.id !in old(party)
        && party == old(party)[r.id := PartyRow(player, c.mon, DefaultExp, MainPosition)]
        && nextPartyId == old(nextPartyId) + 1
        && Books(players, pokedex, specialBadges)
           == RecordCatch(Books(CountCatch(old(players), player), old(pokedex), old(specialBadges)), player, c)
      ensures storage == old(storage) && items == old(items) && badges == old(badges)
      ensures nextPlayerId == old(nextPlayerId) && nextStorageId == old(nextStorageId)
      ensures old(OnePerPlayer(party)) ==> OnePerPlayer(party)
    {
      if HasParty(player) {
        return PartyFull;
      }
      if player !in players {
        SkipPartyId();
        return UnknownPlayer;
      }
      var id := InsertFirstPartyRow(PartyRow(player, c.mon, DefaultExp, MainPosition));
      CountCatchOf(player);
      var _ := AddToPokedex(player, c);
      r := Inserted(id);
    }

    /**
     * addToStorage: always inserts a storage row (no experience column) and
     * does the same bookkeeping; an unknown player fails as in addToParty.
     */
    method AddToStorage(player: nat, c: Capture) returns (r: Insert)
      requires Valid()
      modifies this
      ensures Valid()
      ensures !r.PartyFull?
      ensures r == UnknownPlayer <==> player !in old(players)
      ensures r == UnknownPlayer ==>
        && storage == old(storage) && nextStorageId == old(nextStorageId) + 1 && players == old(players)
        && pokedex == old(pokedex) && specialBadges == old(specialBadges)
      ensures r.Inserted? ==>
        && r.id == old(nextStorageId) && r.id !in old(storage)
        && storage == old(storage)[r.id := StorageRow(player, c.mon)]
        && nextStorageId == old(nextStorageId) + 1
        && Books(players, pokedex, specialBadges)
           == RecordCatch(Books(CountCatch(old(players), player), old(pokedex), old(specialBadges)), player, c)
      ensures party == old(party) && items == old(items) && badges == old(badges)
      ensures nextPlayerId == old(nextPlayerId) && nextPartyId == old(nextPartyId)
    {
      if player !in players {
        SkipStorageId();
        return UnknownPlayer;
      }
      var id := InsertStorageRow(StorageRow(player, c.mon));
      CountCatchOf(player);
      var _ := AddToPokedex(player, c);
      r := Inserted(id);
    }

    /** The INSERT into player_party at a position free for its owner. */
    method InsertPartyRow(row: PartyRow) returns (id: nat)
      requires Valid() && row.playerId in players
      requires forall q :: q in party && party[q].playerId == row.playerId ==> party[q].position != row.position
      modifies this
      ensures Valid()
      ensures id == old(nextPartyId) && id !in old(party)
      ensures party == old(party)[id := row] && nextPartyId == old(nextPartyId) + 1
      ensures players == old(players) && storage == old(storage) && items == old(items) && badges == old(badges)
      ensures pokedex == old(pokedex) && specialBadges == old(specialBadges)
      ensures nextPlayerId == old(nextPlayerId) && nextStorageId == old(nextStorageId)
    {
      id := nextPartyId;
      FreePositionKeeps(party, id, row, players.Keys);
      party := party[id := row];
      nextPartyId := nextPartyId + 1;
    }

    /** UPDATE player_party SET ... WHERE id = ?, keeping the owner and the position. */
    method UpdatePartyRow(id: nat, row: PartyRow)
      requires Valid() && id in party && row.playerId == party[id].playerId && row.position == party[id].position
      modifies this
      ensures Valid()
      ensures party == old(party)[id := row]
      ensures players == old(players) && storage == old(storage) && items == old(items) && badges == old(badges)
      ensures pokedex == old(pokedex) && specialBadges == old(specialBadges)
      ensures nextPlayerId == old(nextPlayerId) && nextPartyId == old(nextPartyId) && nextStorageId == old(nextStorageId)
      ensures old(OnePerPlayer(party)) ==> OnePerPlayer(party)
    {
      RowUpdateKeeps(party, id, row, players.Keys);
      party := party[id := row];
    }

    /** DELETE FROM player_party WHERE id = ?. */
    method DeletePartyRow(id: nat)
      requires Valid()
      modifies this
      ensures Valid()
      ensures party == old(party) - {id}
      ensures players == old(players) && storage == old(storage) && items == old(items) && badges == old(badges)
      ensures pokedex == old(pokedex) && specialBadges == old(specialBadges)
      ensures nextPlayerId == old(nextPlayerId) && nextPartyId == old(nextPartyId) && nextStorageId == old(nextStorageId)
    {
      party := party - {id};
    }

    /** DELETE FROM player_storage WHERE id = ?. */
    method DeleteStorageRow(id: nat)
      requires Valid()
      modifies this
      ensures Valid()
      ensures storage == old(storage) - {id}
      ensures players == old(players) && party == old(party) && items == old(items) && badges == old(badges)
      ensures pokedex == old(pokedex) && specialBadges == old(specialBadges)
      ensures nextPlayerId == old(nextPlayerId) && nextPartyId == old(nextPartyId) && nextStorageId == old(nextStorageId)
    {
      storage := storage - {id};
    }

    /** useItem: spends one ball when the player holds at least one of that type. */
    method UseItem(player: nat, ball: nat) returns (used: bool)
      requires Valid()
      modifies this
      ensures Valid()
      ensures used <==> (player, ball) in old(items) && old(items)[(player, ball)] > 0
      ensures used ==> items == old(items)[(player, ball) := old(items)[(player, ball)] - 1]
      ensures !used ==> unchanged(this)
      ensures players == old(players) && party == old(party) && storage == old(storage) && badges == old(badges)
      ensures pokedex == old(pokedex) && specialBadges == old(specialBadges)
      ensures nextPlayerId == old(nextPlayerId) && nextPartyId == old(nextPartyId) && nextStorageId == old(nextStorageId)
      ensures old(StockNonNegative()) ==> StockNonNegative()
    {
      var key := (player, ball);
      if key !in items || items[key] <= 0 {
        return false;
      }
      WriteItem(key, items[key] - 1);
      used := true;
    }

    /** Writes one item row whose key exists or whose player and ball type exist. */
    method WriteItem(key: (nat, nat), v: int)
      requires Valid()
      requires key in items || (key.0 in players && key.1 in ballTypes)
      modifies this
      ensures Valid()
      ensures items == old(items)[key := v]
      ensures players == old(players) && party == old(party) && storage == old(storage) && badges == old(badges)
      ensures pokedex == old(pokedex) && specialBadges == old(specialBadges)
      ensures nextPlayerId == old(nextPlayerId) && nextPartyId == old(nextPartyId) && nextStorageId == old(nextStorageId)
      ensures old(StockNonNegative()) && v >= 0 ==> StockNonNegative()
    {
      ItemKeeps(items, key, v, players.Keys, ballTypes.Keys);
      if v >= 0 {
        StockWrite(items, key, v);
      }
      items := items[key := v];
    }

    /**
     * updateItemQuantity: adds `qty` to the item row, creating it with `qty`
     * when missing; creating a row for an unknown player or ball type fails on
     * the foreign key.
     */
    method UpdateItemQuantity(player: nat, ball: nat, qty: int) returns (ok: bool)
      requires Valid()
      modifies this
      ensures Valid()
      ensures ok <==> (player, ball) in old(items) || (player in old(players) && ball in ballTypes)
      ensures ok ==> items == Restocked(old(items), (player, ball), qty)
      ensures !ok ==> unchanged(this)
      ensures players == old(players) && party == old(party) && storage == old(storage) && badges == old(badges)
      ensures pokedex == old(pokedex) && specialBadges == old(specialBadges)
      ensures nextPlayerId == old(nextPlayerId) && nextPartyId == old(nextPartyId) && nextStorageId == old(nextStorageId)
      ensures old(StockNonNegative()) && qty >= 0 ==> StockNonNegative()
    {
      var key := (player, ball);
      if key !in items && !(player in players && ball in ballTypes) {
        return false;
      }
      ghost var restocked := Restocked(items, key, qty);
      var v := (if key in items then items[key] else 0) + qty;
      assert restocked == items[key := v];
      WriteItem(key, v);
      ok := true;
    }

    /**
     * buyPokeball: an unknown ball type, an unknown player or money below
     * price * quantity is refused with no change; otherwise the cost is
     * debited and the stock credited. The quantity is not checked here.
     */
    method BuyPokeball(player: nat, ball: nat, qty: int) returns (r: Purchase)
      requires Valid()
      modifies this
      ensures Valid()
      ensures r == UnknownBallType <==> ball !in ballTypes
      ensures r == NoSuchPlayer <==> ball in ballTypes && player !in old(players)
      ensures r == InsufficientFunds <==>
              ball in ballTypes && player in old(players) && old(players)[player].money < ballTypes[ball].price * qty
      ensures r != Bought ==> unchanged(this)
      ensures r == Bought ==>
        && players == Credit(old(players), player, -(ballTypes[ball].price * qty))
        && items == Restocked(old(items), (player, ball), qty)
        && players[player].money >= 0
      ensures party == old(party) && storage == old(storage) && badges == old(badges)
      ensures pokedex == old(pokedex) && specialBadges == old(specialBadges)
      ensures nextPlayerId == old(nextPlayerId) && nextPartyId == old(nextPartyId) && nextStorageId == old(nextStorageId)
      ensures old(StockNonNegative()) && qty >= 0 ==> StockNonNegative()
    {
      if ball !in ballTypes {
        return UnknownBallType;
      }
      var cost := ballTypes[ball].price * qty;
      if player !in players {
        return NoSuchPlayer;
      }
      if players[player].money < cost {
        return InsufficientFunds;
      }
      UpdatePlayerMoney(player, -cost);
      var _ := UpdateItemQuantity(player, ball, qty);
      r := Bought;
    }

    /** addBadge: a first badge of an existing gym for an existing player is recorded and counted. */
    method AddBadge(player: nat, gym: nat) returns (ok: bool)
      requires Valid()
      modifies this
      ensures Valid()
      ensures ok <==> player in old(players) && gym in gyms && (player, gym) !in old(badges)
      ensures ok ==> badges == old(badges) + {(player, gym)} && players == CountGym(old(players), player)
      ensures !ok ==> unchanged(this)
      ensures party == old(party) && storage == old(storage) && items == old(items)
      ensures pokedex == old(pokedex) && specialBadges == old(specialBadges)
      ensures nextPlayerId == old(nextPlayerId) && nextPartyId == old(nextPartyId) && nextStorageId == old(nextStorageId)
    {
      if player !in players || gym !in gyms || (player, gym) in badges {
        return false;
      }
      badges := badges + {(player, gym)};
      PlayerFieldsKeep(Books(players, pokedex, specialBadges), CountGym(players, player));
      players := CountGym(players, player);
      ok := true;
    }

    /** restorePokemonHp: the party creature's hp back to its max_hp; an unknown id updates no row. */
    method RestorePokemonHp(partyId: nat)
      requires Valid()
      modifies this
      ensures Valid()
      ensures partyId in old(party) ==>
        party == old(party)[partyId := old(party)[partyId].(mon := old(party)[partyId].mon.(hp := old(party)[partyId].mon.maxHp))]
      ensures partyId !in old(party) ==> party == old(party)
      ensures players == old(players) && storage == old(storage) && items == old(items) && badges == old(badges)
      ensures pokedex == old(pokedex) && specialBadges == old(specialBadges)
      ensures nextPlayerId == old(nextPlayerId) && nextPartyId == old(nextPartyId) && nextStorageId == old(nextStorageId)
      ensures old(OnePerPlayer(party)) ==> OnePerPlayer(party)
    {
      if partyId in party {
        var row := party[partyId];
        var healed := row.(mon := row.mon.(hp := row.mon.maxHp));
        UpdatePartyRow(partyId, healed);
      }
    }

    /**
     * addExpToPokemon: a missing row is an error; a creature at level 100
     * gains nothing and its row is left alone; otherwise the level-up loop
     * runs and the row gets the new exp, level, max_hp and attack, with hp
     * set to the new max_hp whether or not a level was gained.
     */
    method AddExpToPokemon(partyId: nat, expGained: int, hpRolls: seq<real>, attackRolls: seq<real>) returns (r: Option<LevelUp>)
      requires Valid()
      requires partyId in party ==>
               RollsCover(party[partyId].mon.level, hpRolls) && RollsCover(party[partyId].mon.level, attackRolls)
      modifies this
      ensures Valid()
      ensures r.None? <==> partyId !in old(party)
      ensures r.Some? ==>
        var row := old(party)[partyId];
        var s := Stats(row.mon.level, row.exp, row.mon.maxHp, row.mon.attack);
        && (row.mon.level >= MaxLevel ==> r.value == LevelUp(0, 0, 0, 0, s) && party == old(party))
        && (row.mon.level < MaxLevel ==>
             var (level, exp) := Settle(s.level, s.exp + expGained);
             && r.value.after.level == level
             && r.value.after.exp == (if level == MaxLevel then 0 else exp)
             && r.value.levelsGained == level - s.level
             && r.value.hpGained == HpTotal(s.level, r.value.levelsGained, hpRolls)
             && r.value.attackGained == AttackTotal(s.level, r.value.levelsGained, attackRolls)
             && r.value.after.maxHp == s.maxHp + r.value.hpGained
             && r.value.after.attack == s.attack + r.value.attackGained
             && party == old(party)[partyId := row.(exp := r.value.after.exp,
                                                   mon := row.mon.(level := r.value.after.level, maxHp := r.value.after.maxHp,
                                                                   hp := r.value.after.maxHp, attack := r.value.after.attack))])
      ensures r.None? ==> party == old(party)
      ensures old(OnePerPlayer(party)) ==> OnePerPlayer(party)
      ensures players == old(players) && storage == old(storage) && items == old(items) && badges == old(badges)
      ensures pokedex == old(pokedex) && specialBadges == old(specialBadges)
      ensures nextPlayerId == old(nextPlayerId) && nextPartyId == old(nextPartyId) && nextStorageId == old(nextStorageId)
    {
      if partyId !in party {
        return None;
      }
      var row := party[partyId];
      var up := ApplyExperience(Stats(row.mon.level, row.exp, row.mon.maxHp, row.mon.attack), expGained, hpRolls, attackRolls);
      if row.mon.level < MaxLevel {
        var updated := row.(exp := up.after.exp,
                            mon := row.mon.(level := up.after.level, maxHp := up.after.maxHp, hp := up.after.maxHp, attack := up.after.attack));
        UpdatePartyRow(partyId, updated);
      }
      r := Some(up);
    }

    /**
     * The first step of switchMainPokemon: one of the player's party rows, if
     * there is any, is copied to storage without its experience and deleted.
     */
    method StashMain(player: nat) returns (ghost displaced: Option<nat>)
      requires Valid()
      modifies this
      ensures Valid()
      ensures displaced.Some? <==> old(HasParty(player))
      ensures displaced.None? ==> unchanged(this)
      ensures displaced.Some? ==>
        && displaced.value in old(party) && old(party)[displaced.value].playerId == player
        && party == old(party) - {displaced.value}
        && storage == old(storage)[old(nextStorageId) := StorageRow(player, old(party)[displaced.value].mon)]
        && old(nextStorageId) !in old(storage) && nextStorageId == old(nextStorageId) + 1
      ensures old(OnePerPlayer(party)) ==> PartyOf(party, player) == {} && OnePerPlayer(party)
      ensures players == old(players) && items == old(items) && badges == old(badges)
      ensures pokedex == old(pokedex) && specialBadges == old(specialBadges)
      ensures nextPlayerId == old(nextPlayerId) && nextPartyId == old(nextPartyId)
    {
      displaced := None;
      if HasParty(player) {
        var main :| main in party && party[main].playerId == player;
        var _ := InsertStorageRow(StorageRow(player, party[main].mon));
        DeletePartyRow(main);
        displaced := Some(main);
      }
    }

    /** Replaces the party and storage tables, as a COMMIT or a ROLLBACK does; the storage id counter never goes back. */
    method CommitTables(p: map<nat, PartyRow>, st: map<nat, StorageRow>, next: nat)
      requires Valid() && nextStorageId <= next
      requires KeysBelow(p, nextPartyId) && PartyOwned(p, players.Keys) && PositionsUnique(p)
      requires KeysBelow(st, next) && StorageOwned(st, players.Keys)
      modifies this
      ensures Valid()
      ensures party == p && storage == st && nextStorageId == next
      ensures players == old(players) && items == old(items) && badges == old(badges)
      ensures pokedex == old(pokedex) && specialBadges == old(specialBadges)
      ensures nextPlayerId == old(nextPlayerId) && nextPartyId == old(nextPartyId)
    {
      party, storage, nextStorageId := p, st, next;
    }

    /**
     * switchMainPokemon: the chosen storage creature becomes the player's
     * party creature. A storage id that is missing or another player's fails
     * with no change. Any one of the player's party rows (`displaced`) is
     * moved to storage first, losing its experience; the chosen creature is
     * inserted at position 1 with the default experience and its storage row
     * deleted. If another row of the player still holds position 1 the
     * insert fails and the transaction rolls back, although the storage and
     * party id counters stay advanced by the INSERTs made.
     */
    method SwitchMainPokemon(player: nat, storageId: nat) returns (r: Switch, ghost displaced: Option<nat>)
      requires Valid()
      modifies this
      ensures Valid()
      ensures r == NotInStorage <==> !(storageId in old(storage) && old(storage)[storageId].playerId == player)
      ensures r == NotInStorage ==> unchanged(this) && displaced == None
      ensures r != NotInStorage ==> (displaced.Some? <==> old(HasParty(player)))
      ensures displaced.Some? ==> displaced.value in old(party) && old(party)[displaced.value].playerId == player
      ensures r != NotInStorage ==> nextStorageId == old(nextStorageId) + (if displaced.Some? then 1 else 0)
      ensures r == PositionTaken ==> party == old(party) && storage == old(storage) && nextPartyId == old(nextPartyId) + 1
      ensures r.Switched? ==>
        && r.partyId == old(nextPartyId) && r.partyId !in old(party) && nextPartyId == old(nextPartyId) + 1
        && party == (if displaced.Some? then old(party) - {displaced.value} else old(party))
                    [r.partyId := PartyRow(player, old(storage)[storageId].mon, DefaultExp, MainPosition)]
        && storage == (if displaced.Some?
                       then old(storage)[old(nextStorageId) := StorageRow(player, old(party)[displaced.value].mon)]
                       else old(storage)) - {storageId}
        && |StorageOf(storage, player)| == |old(StorageOf(storage, player))| - (if displaced.Some? then 0 else 1)
      ensures old(OnePerPlayer(party)) ==> r != PositionTaken && OnePerPlayer(party)
      ensures old(OnePerPlayer(party)) && r.Switched? ==> PartyOf(party, player) == {r.partyId}
      ensures players == old(players) && items == old(items) && badges == old(badges)
      ensures pokedex == old(pokedex) && specialBadges == old(specialBadges) && nextPlayerId == old(nextPlayerId)
    {
      displaced := None;
      if !(storageId in storage && storage[storageId].playerId == player) {
        return NotInStorage, None;
      }
      var chosen := storage[storageId];
      var party0, storage0, stashId := party, storage, nextStorageId;
      displaced := StashMain(player);
      if exists q :: q in party && party[q].playerId == player && party[q].position == MainPosition {
        CommitTables(party0, storage0, nextStorageId);
        SkipPartyId();
        return PositionTaken, displaced;
      }
      PartyOfInsert(party, nextPartyId, PartyRow(player, chosen.mon, DefaultExp, MainPosition));
      var id := InsertPartyRow(PartyRow(player, chosen.mon, DefaultExp, MainPosition));
      DeleteStorageRow(storageId);
      SwitchStorageCount(storage0, storage, player, storageId, displaced.Some?, stashId,
                         if displaced.Some? then party0[displaced.value].mon else chosen.mon);
      r := Switched(id);
    }

    /**
     * migrateExtraPartyToStorage: every party row of the player above
     * position 1 is copied to storage (without its experience) and deleted,
     * one by one in an unspecified order; the count moved is reported.
     */
    method MigrateExtraPartyToStorage(player: nat) returns (moved: nat, ghost order: seq<nat>)
      requires Valid()
      modifies this
      ensures Valid()
      ensures moved == |old(ExtraParty(party, player))| && |order| == moved
      ensures forall j :: 0 <= j < |order| ==> order[j] in old(ExtraParty(party, player))
      ensures forall i, j :: 0 <= i < j < |order| ==> order[i] != order[j]
      ensures party == old(party) - old(ExtraParty(party, player))
      ensures ExtraParty(party, player) == {}
      ensures nextStorageId == old(nextStorageId) + moved
      ensures forall k :: k in storage <==> k in old(storage) || old(nextStorageId) <= k < nextStorageId
      ensures forall k :: k in old(storage) ==> storage[k] == old(storage)[k]
      ensures forall j :: 0 <= j < moved ==> storage[old(nextStorageId) + j] == StorageRow(player, old(party)[order[j]].mon)
      ensures players == old(players) && items == old(items) && badges == old(badges)
      ensures pokedex == old(pokedex) && specialBadges == old(specialBadges)
      ensures nextPlayerId == old(nextPlayerId) && nextPartyId == old(nextPartyId)
    {
      // The transaction works on copies of the two tables and commits them at the end.
      var extra := ExtraParty(party, player);
      var p, st, next;
      moved, p, st, next, order := CopyToStorage(party, storage, nextStorageId, player, extra);
      SubPartyKeeps(p, party, players.Keys, nextPartyId);
      assert StorageOwned(st, players.Keys) by {
        if order != [] {
          assert party[order[0]].playerId == player;
        }
      }
      CommitTables(p, st, next);
    }

    /** Once migrated, a second migration finds nothing to move. */
    method MigrateTwice(player: nat) returns (first: nat, second: nat)
      requires Valid()
      modifies this
      ensures Valid()
      ensures first == old(|ExtraParty(party, player)|) && second == 0
    {
      ghost var order;
      first, order := MigrateExtraPartyToStorage(player);
      second, order := MigrateExtraPartyToStorage(player);
    }

    /**
     * getLeaderboard: every player once, ranked by pokemon_caught, then
     * gyms_defeated, then money, all descending, keeping the first 50.
     * `rows` is the players table read in an unspecified order.
     */
    method GetLeaderboard() returns (top: seq<Leaderboard.Entry>, ghost rows: seq<Leaderboard.Entry>)
      ensures top == Leaderboard.Top(rows)
      ensures forall i :: 0 <= i < |rows| ==> rows[i].id in players && rows[i] == EntryOf(rows[i].id, players[rows[i].id])
      ensures forall id :: id in players ==> exists i :: 0 <= i < |rows| && rows[i].id == id
      ensures forall i, j :: 0 <= i < j < |rows| ==> rows[i].id != rows[j].id
    {
      var todo := players.Keys;
      var acc: seq<Leaderboard.Entry> := [];
      while todo != {}
        invariant todo <= players.Keys
        invariant forall i :: 0 <= i < |acc| ==> acc[i].id in players && acc[i].id !in todo && acc[i] == EntryOf(acc[i].id, players[acc[i].id])
        invariant forall id :: id in players && id !in todo ==> exists i :: 0 <= i < |acc| && acc[i].id == id
        invariant forall i, j :: 0 <= i < j < |acc| ==> acc[i].id != acc[j].id
        decreases |todo|
      {
        var id :| id in todo;
        ghost var prev := acc;
        acc := acc + [EntryOf(id, players[id])];
        assert acc[|prev|].id == id;
        assert forall i :: 0 <= i < |prev| ==> acc[i] == prev[i];
        todo := todo - {id};
      }
      rows := acc;
      top := Leaderboard.Top(acc);
    }
  }
}
