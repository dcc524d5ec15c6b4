/**
 * The leaderboard query of the game server (server/models/gameModel.js,
 * getLeaderboard): players ordered by pokemon_caught, then gyms_defeated, then
 * money, each descending, and only the first fifty kept.
 *
 * SQL leaves the order of rows that tie on all three keys unspecified; this
 * model fixes one (an insertion sort that puts a row before the rows it ties
 * with) and proves only what SQL guarantees.
 */
module Leaderboard {

  /** The columns of one leaderboard row that the ordering reads. */
  datatype Entry = Entry(id: nat, name: string, pokemonCaught: int, gymsDefeated: int, money: int)

  /** LIMIT 50. */
  const Limit := 50

  /** a ranks at least as high as b: the three keys compared lexicographically, larger first. */
  predicate RanksAtLeast(a: Entry, b: Entry) {
    || a.pokemonCaught > b.pokemonCaught
    || (a.pokemonCaught == b.pokemonCaught && a.gymsDefeated > b.gymsDefeated)
    || (a.pokemonCaught == b.pokemonCaught && a.gymsDefeated == b.gymsDefeated && a.money >= b.money)
  }

  /** Rows ordered from the highest rank down. */
  predicate Ranked(s: seq<Entry>) {
    forall i, j :: 0 <= i < j < |s| ==> RanksAtLeast(s[i], s[j])
  }

  /** Inserts one row into a ranked sequence, before the first row it ranks at least as high as. */
  function Insert(x: Entry, s: seq<Entry>): (r: seq<Entry>)
    ensures |r| == |s| + 1
    ensures multiset(r) == multiset(s) + multiset{x}
  {
    if s == [] || RanksAtLeast(x, s[0]) then
      [x] + s
    else
      assert s == [s[0]] + s[1..];
      [s[0]] + Insert(x, s[1..])
  }

  /** Insertion keeps a ranked sequence ranked. */
  lemma {:induction false} InsertRanked(x: Entry, s: seq<Entry>)
    requires Ranked(s)
    ensures Ranked(Insert(x, s))
  {
    if s != [] && !RanksAtLeast(x, s[0]) {
      var rest := Insert(x, s[1..]);
      InsertRanked(x, s[1..]);
      forall k | 0 <= k < |rest|
        ensures RanksAtLeast(s[0], rest[k])
      {
        assert rest[k] in multiset(s[1..]) + multiset{x};
        if rest[k] != x {
          assert rest[k] in s[1..];
        }
      }
    }
  }

  /** ORDER BY pokemon_caught DESC, gyms_defeated DESC, money DESC. */
  function Sort(s: seq<Entry>): (r: seq<Entry>)
    ensures |r| == |s|
    ensures multiset(r) == multiset(s)
  {
    if s == [] then []
    else
      assert s == [s[0]] + s[1..];
      Insert(s[0], Sort(s[1..]))
  }

  lemma {:induction false} SortRanked(s: seq<Entry>)
    ensures Ranked(Sort(s))
  {
    if s != [] {
      SortRanked(s[1..]);
      InsertRanked(s[0], Sort(s[1..]));
    }
  }

  /** The leaderboard: the ranked rows, at most the first fifty. */
  function Top(rows: seq<Entry>): (r: seq<Entry>)
    ensures |r| == if |rows| < Limit then |rows| else Limit
  {
    var sorted := Sort(rows);
    sorted[..if |sorted| < Limit then |sorted| else Limit]
  }

  /** The leaderboard is ranked. */
  lemma TopRanked(rows: seq<Entry>)
    ensures Ranked(Top(rows))
  {
    SortRanked(rows);
  }

  /** The leaderboard holds only players' rows, each at most as often as it occurs. */
  lemma TopFromRows(rows: seq<Entry>)
    ensures multiset(Top(rows)) <= multiset(rows)
  {
    var sorted := Sort(rows);
    var n := |Top(rows)|;
    assert sorted == sorted[..n] + sorted[n..];
    SplitMultiset(sorted, n);
  }

  /** Every row the leaderboard leaves out ranks no higher than any row it keeps. */
  lemma TopIsBest(rows: seq<Entry>)
    ensures forall x, y :: x in Top(rows) && y in multiset(rows) - multiset(Top(rows)) ==> RanksAtLeast(x, y)
  {
    var sorted := Sort(rows);
    SortRanked(rows);
    var n := |Top(rows)|;
    SplitMultiset(sorted, n);
    assert multiset(rows) - multiset(sorted[..n]) == multiset(sorted[n..]);
    RankedSplit(sorted, n);
  }

  /** In a ranked sequence, everything before a cut ranks at least as high as everything after it. */
  lemma RankedSplit(s: seq<Entry>, n: nat)
    requires Ranked(s) && n <= |s|
    ensures forall x, y :: x in s[..n] && y in s[n..] ==> RanksAtLeast(x, y)
  {
    forall x, y | x in s[..n] && y in s[n..]
      ensures RanksAtLeast(x, y)
    {
      var i :| 0 <= i < n && s[..n][i] == x;
      var j :| 0 <= j < |s| - n && s[n..][j] == y;
      assert s[i] == x && s[n + j] == y;
    }
  }

  /** A sequence's elements are those of its two halves. */
  lemma SplitMultiset(s: seq<Entry>, n: nat)
    requires n <= |s|
    ensures multiset(s) == multiset(s[..n]) + multiset(s[n..])
  {
    assert s == s[..n] + s[n..];
  }
}
