/**
 * The client-side rules of the battle screen (frontend/src/views/game/index.jsx):
 * the experience bar's target and the catch-attempt counter. React state
 * is a value the handlers replace, so each handler is a function from the
 * screen before to the screen after; the reply of the server is a
 * parameter.
 */
module GameView {
  import opened Wrappers
  import Progression
  import Encounter
  import GameController

  /** getExpForNextLevel, computed on the client: 0 at the level cap. */
  function ExpForNextLevel(level: int): (r: int)
    ensures level >= 100 ==> r == 0
    ensures level <= 1 ==> r == 100
    ensures 1 < level < 100 ==> r == Progression.ExpForLevel(level)
  {
    if level >= 100 then 0
    else if level <= 1 then 100
    else
      var baseExp := 100;
      var linearGrowth := (level - 1) * 15;
      var quadraticGrowth := Square(level - 1) * 2;
      baseExp + linearGrowth + quadraticGrowth
  }

  /** `Math.pow(x, 2)` on an integer. */
  function Square(x: int): int { x * x }

  datatype View = Home | Battle

  /** The part of the component state that the catch counter touches. */
  datatype Screen = Screen(view: View, wild: Option<Encounter.Wild>, inBattle: bool, catchAttempts: nat, inGym: bool)

  /** Leaving an encounter: back home, no wild creature, the counter reset. */
  function EndEncounter(s: Screen): (r: Screen)
    ensures r.view == Home && r.wild.None? && !r.inBattle && r.catchAttempts == 0 && r.inGym == s.inGym
  {
    s.(view := Home, wild := None, inBattle := false, catchAttempts := 0)
  }

  /** handleExplore: a creature from the server opens a battle with a fresh counter; a failed request changes nothing. */
  function OnExplore(s: Screen, reply: Option<Encounter.Wild>): (r: Screen)
    ensures reply.None? ==> r == s
    ensures reply.Some? ==> r.view == Battle && r.wild == reply && r.inBattle && r.catchAttempts == 0 && r.inGym == s.inGym
  {
    match reply
    case None => s
    case Some(w) => s.(view := Battle, wild := Some(w), inBattle := true, catchAttempts := 0)
  }

  /** handleRun: leaves the battle, the gym and the counter. */
  function OnRun(s: Screen): (r: Screen)
    ensures r.view == Home && r.wild.None? && !r.inBattle && r.catchAttempts == 0 && !r.inGym
  {
    EndEncounter(s).(inGym := false)
  }

  /** The attempts a wild creature allows before it flees. */
  const MaxAttempts := 3

  /** A catch attempt: the screen after it, and whether the server was asked. */
  datatype CatchStep = CatchStep(screen: Screen, serverCalled: bool)

  /**
   * handleCatch. With no creature, or one whose hp is at most 0, the server
   * is not asked and nothing changes. `reply` is the server's outcome, `None`
   * when the request failed. An escape counts one attempt and the third
   * escape ends the encounter; a catch ends it at once; a refusal (no ball,
   * a fainted creature) and a failed request leave the counter alone.
   */
  function OnCatch(s: Screen, reply: Option<GameController.CatchOutcome>): (r: CatchStep)
    ensures !r.serverCalled <==> s.wild.None? || s.wild.value.hp <= 0
    ensures !r.serverCalled ==> r.screen == s
    ensures r.serverCalled && reply.Some? && reply.value.CaughtIn? ==> r.screen == EndEncounter(s)
    ensures r.serverCalled && reply.Some? && reply.value.Escaped? ==>
              if s.catchAttempts + 1 >= MaxAttempts then r.screen == EndEncounter(s)
              else r.screen == s.(catchAttempts := s.catchAttempts + 1)
    ensures r.serverCalled && (reply.None? || reply.value.Fainted? || reply.value.NoBall?) ==> r.screen == s
  {
    if s.wild.None? || s.wild.value.hp <= 0 then CatchStep(s, false)
    else
      var after :=
        match reply
        case None => s
        case Some(Fainted) => s
        case Some(NoBall) => s
        case Some(Escaped) =>
          var newAttempts := s.catchAttempts + 1;
          if newAttempts >= MaxAttempts then EndEncounter(s) else s.(catchAttempts := newAttempts)
        case Some(CaughtIn(_, _, _)) => EndEncounter(s);
      CatchStep(after, true)
  }

  /** The counter never reaches the limit: it is reset when it would. */
  predicate CounterBelowLimit(s: Screen) {
    s.catchAttempts < MaxAttempts
  }

  /** Every handler keeps the counter below the limit. */
  lemma HandlersKeepCounter(s: Screen, w: Option<Encounter.Wild>, reply: Option<GameController.CatchOutcome>)
    requires CounterBelowLimit(s)
    ensures CounterBelowLimit(OnExplore(s, w))
    ensures CounterBelowLimit(OnRun(s))
    ensures CounterBelowLimit(OnCatch(s, reply).screen)
  {
  }

  /** Three escapes after an explore end the encounter; two do not. */
  lemma ThirdEscapeFlees(s: Screen, w: Encounter.Wild)
    requires w.hp > 0
    ensures var s0 := OnExplore(s, Some(w));
            var s1 := OnCatch(s0, Some(GameController.Escaped)).screen;
            var s2 := OnCatch(s1, Some(GameController.Escaped)).screen;
            var s3 := OnCatch(s2, Some(GameController.Escaped)).screen;
            s2.inBattle && s2.wild == Some(w) && s2.catchAttempts == 2
            && s3 == EndEncounter(s0)
  {
  }

  /** A fainted creature can never be caught from the screen: the server is not asked and the counter stays. */
  lemma FaintedNeverAsked(s: Screen, w: Encounter.Wild, reply: Option<GameController.CatchOutcome>)
    requires w.hp <= 0 && s.wild == Some(w)
    ensures OnCatch(s, reply) == CatchStep(s, false)
  {
  }
}
