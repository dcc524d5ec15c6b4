/**
 * The request handlers of server/controllers/gameController.js that change
 * the store: catching, the effects of winning a battle, earning a badge,
 * buying balls and signing up. Each handler is one method over a
 * `GameStore.Store`; the random draws are parameters. The HTTP request and
 * response objects are left out: a handler's outcome stands for its JSON
 * reply.
 */
module GameController {
  import opened Wrappers
  import opened Random
  import opened Progression
  import opened Encounter
  import opened GameStore

  /** The player holds at least one ball of that type. */
  predicate HasBall(items: map<(nat, nat), int>, player: nat, ball: nat) {
    (player, ball) in items && items[(player, ball)] > 0
  }

  // ---------------------------------------------------------------------
  // The order in which a catch is booked does not matter
  // ---------------------------------------------------------------------

  lemma CreditCountCommute(players: map<nat, Player>, player: nat, amount: int)
    ensures CountCatch(Credit(players, player, amount), player) == Credit(CountCatch(players, player), player, amount)
  {
  }

  lemma CreditsCommute(players: map<nat, Player>, player: nat, a: int, b: int)
    ensures Credit(Credit(players, player, a), player, b) == Credit(Credit(players, player, b), player, a)
  {
  }

  /**
   * catchPokemon credits the catch reward before addToStorage books a catch
   * that went to storage, but after addToParty books one that went to the
   * party: both orders end in the same players, pokedex and special badges.
   */
  lemma {:induction false} CreditBeforeCatch(b: Books, player: nat, c: Capture, amount: int)
    ensures RecordCatch(Books(CountCatch(Credit(b.players, player, amount), player), b.pokedex, b.specialBadges), player, c)
            == var r := RecordCatch(Books(CountCatch(b.players, player), b.pokedex, b.specialBadges), player, c);
               r.(players := Credit(r.players, player, amount))
  {
    CreditCountCommute(b.players, player, amount);
    var p := CountCatch(b.players, player);
    match FindEntry(b.pokedex, player, c.mon.speciesId)
    case Some(i) =>
    case None =>
      if player in p {
        CreditsCommute(p, player, amount, FullPokedexReward);
      }
  }

  /**
   * What a catch does to the catcher's row: one more creature caught, the
   * reward and, when the catch completed the pokedex, the completion reward
   * added to the money, gyms defeated unchanged.
   */
  lemma {:induction false} CatchTally(b: Books, player: nat, c: Capture, reward: int)
    requires player in b.players
    ensures var r := RecordCatch(Books(CountCatch(b.players, player), b.pokedex, b.specialBadges), player, c);
            var after := Credit(r.players, player, reward);
            var completed := (player, FullPokedexBadge) in r.specialBadges && (player, FullPokedexBadge) !in b.specialBadges;
            && player in after
            && after[player].pokemonCaught == b.players[player].pokemonCaught + 1
            && after[player].gymsDefeated == b.players[player].gymsDefeated
            && after[player].money == b.players[player].money + reward + (if completed then FullPokedexReward else 0)
  {
    var p := CountCatch(b.players, player);
    var b1 := Books(p, b.pokedex, b.specialBadges);
    match FindEntry(b.pokedex, player, c.mon.speciesId)
    case Some(i) =>
    case None =>
      var b2 := b1.(pokedex := b1.pokedex + [NewEntry(player, c)]);
      assert RecordCatch(b1, player, c) == AwardFullPokedex(b2, player);
  }

  // ---------------------------------------------------------------------
  // catchPokemon
  // ---------------------------------------------------------------------

  datatype Location = InParty | InStorage

  /** The replies of catchPokemon. */
  datatype CatchOutcome =
    | Fainted
    | NoBall
    | Escaped
    | CaughtIn(location: Location, reward: int, exp: Option<LevelUp>)

  /** A party row after addExpToPokemon (below level 100): the new level, stats and exp, and hp refilled to the new max_hp. */
  function Grown(row: PartyRow, up: LevelUp): (r: PartyRow)
    ensures r.playerId == row.playerId && r.position == row.position && r.mon.hp == r.mon.maxHp
  {
    row.(exp := up.after.exp,
         mon := row.mon.(level := up.after.level, maxHp := up.after.maxHp, hp := up.after.maxHp, attack := up.after.attack))
  }

  /** The party after addExpToPokemon on row `id` reported `exp`: a row below level 100 has grown, any other is as it was. */
  function Grow(party: map<nat, PartyRow>, id: nat, exp: Option<LevelUp>): (r: map<nat, PartyRow>)
    ensures r.Keys == party.Keys
    ensures forall q :: q in party && q != id ==> r[q] == party[q]
  {
    if exp.Some? && id in party && party[id].mon.level < MaxLevel then party[id := Grown(party[id], exp.value)] else party
  }

  /** The party after restorePokemonHp on row `id`: its hp back to its max_hp. */
  function Heal(party: map<nat, PartyRow>, id: nat): (r: map<nat, PartyRow>)
    ensures r.Keys == party.Keys
    ensures id in party ==> r[id].mon.hp == r[id].mon.maxHp
    ensures forall q :: q in party && q != id ==> r[q] == party[q]
  {
    if id in party then party[id := party[id].(mon := party[id].mon.(hp := party[id].mon.maxHp))] else party
  }

  /** The rewards of a catch: experience for the fielded creature `mainId` (0 for none), then the money. */
  method RewardCatch(s: Store, player: nat, mainId: nat, expGained: int, reward: int, hpRolls: seq<real>, attackRolls: seq<real>)
    returns (exp: Option<LevelUp>)
    requires s.Valid()
    requires mainId in s.party ==>
             RollsCover(s.party[mainId].mon.level, hpRolls) && RollsCover(s.party[mainId].mon.level, attackRolls)
    modifies s
    ensures s.Valid()
    ensures exp.Some? <==> mainId != 0 && mainId in old(s.party)
    ensures s.players == Credit(old(s.players), player, reward)
    ensures s.party == Grow(old(s.party), mainId, exp)
    ensures s.storage == old(s.storage) && s.items == old(s.items) && s.badges == old(s.badges)
    ensures s.pokedex == old(s.pokedex) && s.specialBadges == old(s.specialBadges)
    ensures s.nextPlayerId == old(s.nextPlayerId) && s.nextPartyId == old(s.nextPartyId) && s.nextStorageId == old(s.nextStorageId)
    ensures old(OnePerPlayer(s.party)) ==> OnePerPlayer(s.party)
  {
    exp := None;
    if mainId != 0 {
      exp := s.AddExpToPokemon(mainId, expGained, hpRolls, attackRolls);
    }
    s.UpdatePlayerMoney(player, reward);
  }

  /**
   * The successful branch of catchPokemon: the creature goes to the party
   * when the party is empty and to storage otherwise, the fielded creature
   * gains experience and the catch reward is credited, in the order of the
   * handler.
   */
  method BookCatch(s: Store, player: nat, c: Capture, mainId: nat, reward: int, hpRolls: seq<real>, attackRolls: seq<real>)
    returns (location: Location, exp: Option<LevelUp>)
    requires s.Valid() && player in s.players
    requires mainId in s.party ==>
             RollsCover(s.party[mainId].mon.level, hpRolls) && RollsCover(s.party[mainId].mon.level, attackRolls)
    requires mainId == s.nextPartyId ==> RollsCover(c.mon.level, hpRolls) && RollsCover(c.mon.level, attackRolls)
    modifies s
    ensures s.Valid()
    ensures location == InParty <==> !old(s.HasParty(player))
    ensures var r := RecordCatch(Books(CountCatch(old(s.players), player), old(s.pokedex), old(s.specialBadges)), player, c);
            s.players == Credit(r.players, player, reward) && s.pokedex == r.pokedex && s.specialBadges == r.specialBadges
    ensures location == InParty ==>
      && old(s.nextPartyId) !in old(s.party)
      && s.party == Grow(old(s.party)[old(s.nextPartyId) := PartyRow(player, c.mon, DefaultExp, MainPosition)], mainId, exp)
      && s.storage == old(s.storage)
    ensures location == InStorage ==>
      && old(s.nextStorageId) !in old(s.storage)
      && s.storage == old(s.storage)[old(s.nextStorageId) := StorageRow(player, c.mon)]
      && s.party == Grow(old(s.party), mainId, exp)
    ensures exp.Some? <==> mainId != 0 && (mainId in old(s.party) || (location == InParty && mainId == old(s.nextPartyId)))
    ensures s.items == old(s.items) && s.badges == old(s.badges)
    ensures old(OnePerPlayer(s.party)) ==> OnePerPlayer(s.party)
  {
    if s.HasParty(player) {
      exp := CatchToStorage(s, player, c, mainId, reward, hpRolls, attackRolls);
      return InStorage, exp;
    }
    exp := CatchToParty(s, player, c, mainId, reward, hpRolls, attackRolls);
    location := InParty;
  }

  /** The branch of a catch whose creature joins the empty party: addToParty, then the rewards. */
  method CatchToParty(s: Store, player: nat, c: Capture, mainId: nat, reward: int, hpRolls: seq<real>, attackRolls: seq<real>)
    returns (exp: Option<LevelUp>)
    requires s.Valid() && player in s.players && !s.HasParty(player)
    requires mainId in s.party ==>
             RollsCover(s.party[mainId].mon.level, hpRolls) && RollsCover(s.party[mainId].mon.level, attackRolls)
    requires mainId == s.nextPartyId ==> RollsCover(c.mon.level, hpRolls) && RollsCover(c.mon.level, attackRolls)
    modifies s
    ensures s.Valid()
    ensures var r := RecordCatch(Books(CountCatch(old(s.players), player), old(s.pokedex), old(s.specialBadges)), player, c);
            s.players == Credit(r.players, player, reward) && s.pokedex == r.pokedex && s.specialBadges == r.specialBadges
    ensures old(s.nextPartyId) !in old(s.party)
    ensures s.party == Grow(old(s.party)[old(s.nextPartyId) := PartyRow(player, c.mon, DefaultExp, MainPosition)], mainId, exp)
    ensures exp.Some? <==> mainId != 0 && (mainId in old(s.party) || mainId == old(s.nextPartyId))
    ensures s.storage == old(s.storage) && s.items == old(s.items) && s.badges == old(s.badges)
    ensures old(OnePerPlayer(s.party)) ==> OnePerPlayer(s.party)
  {
    var ins := s.AddToParty(player, c);
    exp := RewardCatch(s, player, mainId, CatchExp(c.mon.level), reward, hpRolls, attackRolls);
  }

  /** The branch of a catch whose creature goes to storage: the rewards come first, then addToStorage. */
  method CatchToStorage(s: Store, player: nat, c: Capture, mainId: nat, reward: int, hpRolls: seq<real>, attackRolls: seq<real>)
    returns (exp: Option<LevelUp>)
    requires s.Valid() && player in s.players
    requires mainId in s.party ==>
             RollsCover(s.party[mainId].mon.level, hpRolls) && RollsCover(s.party[mainId].mon.level, attackRolls)
    modifies s
    ensures s.Valid()
    ensures var r := RecordCatch(Books(CountCatch(old(s.players), player), old(s.pokedex), old(s.specialBadges)), player, c);
            s.players == Credit(r.players, player, reward) && s.pokedex == r.pokedex && s.specialBadges == r.specialBadges
    ensures old(s.nextStorageId) !in old(s.storage)
    ensures s.storage == old(s.storage)[old(s.nextStorageId) := StorageRow(player, c.mon)]
    ensures s.party == Grow(old(s.party), mainId, exp)
    ensures exp.Some? <==> mainId != 0 && mainId in old(s.party)
    ensures s.items == old(s.items) && s.badges == old(s.badges) && s.nextPartyId == old(s.nextPartyId)
    ensures old(OnePerPlayer(s.party)) ==> OnePerPlayer(s.party)
  {
    ghost var b0 := Books(s.players, s.pokedex, s.specialBadges);
    exp := RewardCatch(s, player, mainId, CatchExp(c.mon.level), reward, hpRolls, attackRolls);
    CreditBeforeCatch(b0, player, c, reward);
    var _ := s.AddToStorage(player, c);
  }

  /**
   * catchPokemon: a fainted creature is refused before anything else; then
   * one ball is spent, or the catch is refused when the player has none.
   * The roll `rRoll` is compared with the catch rate; a catch is booked by
   * `BookCatch` with the reward drawn by `rReward`. The roll sequences are
   * those of addExpToPokemon.
   */
  method CatchPokemon(s: Store, player: nat, c: Capture, rate: RateText, ball: nat, mainId: nat,
                      rRoll: real, rReward: real, hpRolls: seq<real>, attackRolls: seq<real>) returns (o: CatchOutcome)
    requires s.Valid() && IsUnit(rRoll) && IsUnit(rReward)
    requires mainId in s.party ==>
             RollsCover(s.party[mainId].mon.level, hpRolls) && RollsCover(s.party[mainId].mon.level, attackRolls)
    requires mainId == s.nextPartyId ==> RollsCover(c.mon.level, hpRolls) && RollsCover(c.mon.level, attackRolls)
    modifies s
    ensures s.Valid()
    ensures o == Fainted <==> c.mon.hp <= 0
    ensures o == NoBall <==> c.mon.hp > 0 && !HasBall(old(s.items), player, ball)
    ensures o == Fainted || o == NoBall ==> unchanged(s)
    ensures o == Escaped <==>
            c.mon.hp > 0 && HasBall(old(s.items), player, ball) && !Caught(rRoll, CatchRate(rate, ball, c.mon.hp, c.mon.maxHp))
    ensures o.Escaped? || o.CaughtIn? ==> player in old(s.players)
    ensures o.Escaped? || o.CaughtIn? ==> s.items == old(s.items)[(player, ball) := old(s.items)[(player, ball)] - 1]
    ensures o == Escaped ==>
            s.players == old(s.players) && s.party == old(s.party) && s.storage == old(s.storage)
            && s.pokedex == old(s.pokedex) && s.specialBadges == old(s.specialBadges)
    ensures o.CaughtIn? ==>
      && o.reward == CatchReward(c.mon.level, rReward)
      && (o.location == InParty <==> !old(s.HasParty(player)))
      && var r := RecordCatch(Books(CountCatch(old(s.players), player), old(s.pokedex), old(s.specialBadges)), player, c);
         s.players == Credit(r.players, player, o.reward) && s.pokedex == r.pokedex && s.specialBadges == r.specialBadges
    ensures o.CaughtIn? && o.location == InParty ==>
      && s.party == Grow(old(s.party)[old(s.nextPartyId) := PartyRow(player, c.mon, DefaultExp, MainPosition)], mainId, o.exp)
      && s.storage == old(s.storage)
    ensures o.CaughtIn? && o.location == InStorage ==>
      && s.storage == old(s.storage)[old(s.nextStorageId) := StorageRow(player, c.mon)]
      && s.party == Grow(old(s.party), mainId, o.exp)
    ensures o.CaughtIn? ==>
      (o.exp.Some? <==> mainId != 0 && (mainId in old(s.party) || (o.location == InParty && mainId == old(s.nextPartyId))))
    ensures old(OnePerPlayer(s.party)) ==> OnePerPlayer(s.party)
    ensures s.badges == old(s.badges)
    ensures old(s.StockNonNegative()) ==> s.StockNonNegative()
  {
    if c.mon.hp <= 0 {
      return Fainted;
    }
    var used := s.UseItem(player, ball);
    if !used {
      return NoBall;
    }
    if !Caught(rRoll, CatchRate(rate, ball, c.mon.hp, c.mon.maxHp)) {
      return Escaped;
    }
    var reward := CatchReward(c.mon.level, rReward);
    var location, exp := BookCatch(s, player, c, mainId, reward, hpRolls, attackRolls);
    o := CaughtIn(location, reward, exp);
  }

  // ---------------------------------------------------------------------
  // attack
  // ---------------------------------------------------------------------

  /**
   * attack: one turn resolved by `ResolveTurn`. Only a victory touches the
   * store: the fielded creature `partyId` gains the turn's experience and is
   * healed to its max_hp, and the reward is credited when the request names
   * the owner (`playerId`, 0 for none).
   */
  method Attack(s: Store, mon: Fighter, partyId: nat, playerId: nat, enemy: Fighter, isGym: bool,
                rHit: real, rReward: real, rCounter: real, hpRolls: seq<real>, attackRolls: seq<real>)
    returns (t: Turn, exp: Option<LevelUp>)
    requires s.Valid() && IsUnit(rHit) && IsUnit(rReward) && IsUnit(rCounter)
    requires partyId in s.party ==>
             RollsCover(s.party[partyId].mon.level, hpRolls) && RollsCover(s.party[partyId].mon.level, attackRolls)
    modifies s
    ensures s.Valid()
    ensures t == ResolveTurn(mon, enemy, isGym, rHit, rReward, rCounter)
    ensures !t.Victory? ==> unchanged(s) && exp.None?
    ensures t.Victory? ==>
      && (exp.Some? <==> partyId in old(s.party))
      && s.players == (if playerId != 0 then Credit(old(s.players), playerId, t.reward) else old(s.players))
      && s.party == Heal(Grow(old(s.party), partyId, exp), partyId)
    ensures t.Victory? && exp.Some? ==>
      var row := old(s.party)[partyId];
      && exp.value.levelsGained == exp.value.after.level - row.mon.level
      && s.party[partyId].mon.hp == s.party[partyId].mon.maxHp
    ensures s.storage == old(s.storage) && s.items == old(s.items) && s.badges == old(s.badges)
    ensures s.pokedex == old(s.pokedex) && s.specialBadges == old(s.specialBadges)
    ensures old(OnePerPlayer(s.party)) ==> OnePerPlayer(s.party)
  {
    t := ResolveTurn(mon, enemy, isGym, rHit, rReward, rCounter);
    exp := None;
    if t.Victory? {
      exp := s.AddExpToPokemon(partyId, t.expGained, hpRolls, attackRolls);
      s.RestorePokemonHp(partyId);
      if playerId != 0 {
        s.UpdatePlayerMoney(playerId, t.reward);
      }
    }
  }

  // ---------------------------------------------------------------------
  // earnBadge, buyItem, registerPlayer
  // ---------------------------------------------------------------------

  datatype BadgeOutcome = Earned(badge: string, reward: int) | Refused

  /** earnBadge: the gym's reward money is credited only when the badge is new. */
  method EarnBadge(s: Store, player: nat, gym: nat) returns (o: BadgeOutcome)
    requires s.Valid()
    modifies s
    ensures s.Valid()
    ensures o.Earned? <==> player in old(s.players) && gym in s.gyms && (player, gym) !in old(s.badges)
    ensures o == Refused ==> unchanged(s)
    ensures o.Earned? ==>
      && o.badge == s.gyms[gym].badgeName && o.reward == s.gyms[gym].rewardMoney
      && s.badges == old(s.badges) + {(player, gym)}
      && s.players == Credit(CountGym(old(s.players), player), player, o.reward)
    ensures s.party == old(s.party) && s.storage == old(s.storage) && s.items == old(s.items)
    ensures s.pokedex == old(s.pokedex) && s.specialBadges == old(s.specialBadges)
  {
    var ok := s.AddBadge(player, gym);
    if !ok {
      return Refused;
    }
    var g := s.gyms[gym];
    s.UpdatePlayerMoney(player, g.rewardMoney);
    o := Earned(g.badgeName, g.rewardMoney);
  }

  datatype BuyOutcome = BadQuantity | Purchased(result: Purchase)

  /**
   * buyItem: a missing (0) or negative quantity is refused before the store
   * is touched; otherwise buyPokeball decides. The guard is what keeps every
   * stock non-negative.
   */
  method BuyItem(s: Store, player: nat, ball: nat, qty: int) returns (o: BuyOutcome)
    requires s.Valid()
    modifies s
    ensures s.Valid()
    ensures o == BadQuantity <==> qty <= 0
    ensures o == BadQuantity ==> unchanged(s)
    ensures o.Purchased? ==> (o.result == UnknownBallType <==> ball !in s.ballTypes)
    ensures o.Purchased? ==> (o.result == NoSuchPlayer <==> ball in s.ballTypes && player !in old(s.players))
    ensures o.Purchased? ==> (o.result == InsufficientFunds <==>
              ball in s.ballTypes && player in old(s.players) && old(s.players)[player].money < s.ballTypes[ball].price * qty)
    ensures o == Purchased(Bought) ==>
      && s.players == Credit(old(s.players), player, -(s.ballTypes[ball].price * qty))
      && s.items == Restocked(old(s.items), (player, ball), qty)
      && s.players[player].money >= 0
    ensures o.Purchased? && o.result != Bought ==> unchanged(s)
    ensures old(s.StockNonNegative()) ==> s.StockNonNegative()
    ensures s.party == old(s.party) && s.storage == old(s.storage) && s.badges == old(s.badges)
    ensures s.pokedex == old(s.pokedex) && s.specialBadges == old(s.specialBadges)
  {
    if qty <= 0 {
      return BadQuantity;
    }
    var r := s.BuyPokeball(player, ball, qty);
    o := Purchased(r);
  }

  datatype SignupError = MissingField | ShortPassword

  /** The input checks of registerPlayer: both fields present, then a password of at least 4 characters. */
  function SignupCheck(name: string, password: string): (r: Option<SignupError>)
    ensures r == Some(MissingField) <==> name == [] || password == []
    ensures r == Some(ShortPassword) <==> name != [] && 0 < |password| < 4
    ensures r.None? <==> name != [] && |password| >= 4
  {
    if name == [] || password == [] then Some(MissingField)
    else if |password| < 4 then Some(ShortPassword)
    else None
  }

  /** Rejected and NameTaken are 400 replies, Failed is the 500 reply of any other database error. */
  datatype Signup = Rejected(reason: SignupError) | NameTaken | Failed | SignedUp(id: nat)

  /**
   * registerPlayer: the input checks, then the insert; a taken name is the
   * duplicate-entry error, a name too long for its column some other error.
   */
  method RegisterPlayer(s: Store, name: string, password: string) returns (o: Signup)
    requires s.Valid()
    modifies s
    ensures s.Valid()
    ensures o.Rejected? <==> SignupCheck(name, password).Some?
    ensures o.Rejected? ==> o.reason == SignupCheck(name, password).value
    ensures o == Failed <==> SignupCheck(name, password).None? && |name| > NameLimit
    ensures o == NameTaken <==>
      && SignupCheck(name, password).None? && |name| <= NameLimit
      && exists id :: id in old(s.players) && SameName(old(s.players)[id].name, name)
    ensures o.Rejected? || o == Failed ==> unchanged(s)
    ensures o == NameTaken ==>
      && s.players == old(s.players) && s.items == old(s.items) && s.nextPlayerId == old(s.nextPlayerId) + 1
    ensures o.SignedUp? ==>
      && o.id !in old(s.players) && s.players == old(s.players)[o.id := Player(name, StartingMoney, 0, 0)]
      && s.items == old(s.items)[(o.id, StarterBallType) := StarterBalls]
    ensures s.party == old(s.party) && s.storage == old(s.storage) && s.badges == old(s.badges)
  {
    var check := SignupCheck(name, password);
    if check.Some? {
      return Rejected(check.value);
    }
    var r := s.RegisterPlayer(name);
    if r == NameTooLong {
      return Failed;
    }
    if r == DuplicateName {
      return NameTaken;
    }
    o := SignedUp(r.id);
  }
}
