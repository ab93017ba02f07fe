/**
 * The values of `playerMap`: one entry per player, holding that player's
 * connection counts and score statistics.
 */
module Entries {
  import opened ScoreSheet
  import opened Shares

  /** One player object of `playerMap`: its name, its `connections` object (the
      counts keyed by player name, with `columns` listing the keys in the order
      they were inserted), and the statistics `collectPlayerInfo` adds. */
  datatype PlayerEntry = PlayerEntry(
    name: Name,
    columns: seq<Name>,
    connections: map<Name, nat>,
    goals: nat,
    points: nat,
    goalPercentage: Quotient,
    involvement: Quotient)

  /** Every column has a count, so the entry can be read off as a matrix row. */
  predicate WellFormed(e: PlayerEntry)
  {
    forall k :: k in e.columns ==> k in e.connections
  }

  /** A `connections` object with every player's count set to 0. */
  function ZeroConnections(players: seq<Name>): (m: map<Name, nat>)
    ensures forall k :: k in m <==> k in players
    ensures forall k :: k in m ==> m[k] == 0
  {
    map p | p in players :: 0
  }

  /** The entry `buildPlayerMap` creates for player p before anything is counted. */
  function FreshEntry(p: Name, players: seq<Name>): (e: PlayerEntry)
    ensures WellFormed(e) && e.name == p && e.columns == players
  {
    PlayerEntry(p, players, ZeroConnections(players), 0, 0, NaN, NaN)
  }

  /** `connections[k]++` on a key the object has; a key it lacks is left alone. */
  function Bump(m: map<Name, nat>, k: Name): (r: map<Name, nat>)
    ensures r.Keys == m.Keys
    ensures forall x :: x in m ==> r[x] == if x == k then m[x] + 1 else m[x]
  {
    if k in m then m[k := m[k] + 1] else m
  }

  /** `collectPlayerInfo`: the player's goals and points, and their shares of the
      total goal count. */
  function CollectPlayerInfo(player: PlayerEntry, rows: seq<GoalRow>, totalGoalCount: nat): (p: PlayerEntry)
    ensures p.name == player.name && p.columns == player.columns && p.connections == player.connections
    ensures p.goals <= p.points <= |rows|
  {
    var goals := Goals(rows, player.name);
    var points := Points(rows, player.name);
    player.(goals := goals, points := points,
            goalPercentage := Divide(goals, totalGoalCount), involvement := Divide(points, totalGoalCount))
  }
}
