/**
 * `playerMap` as `buildPlayerMap` leaves it, the matrix `reduceMapToArray`
 * reads off it, and what both say about the score sheet.
 */
module PlayerMaps {
  import opened Wrappers
  import opened ScoreSheet
  import opened Shares
  import opened Entries
  import opened ConnectionCounts

  /** The entry of player p once its connections have been counted over every row. */
  function CountedEntry(p: Name, players: seq<Name>, rows: seq<GoalRow>): (e: PlayerEntry)
    ensures WellFormed(e) && e.name == p && e.columns == players
  {
    FreshEntry(p, players).(connections := map k | k in players :: Connections(rows, p, k))
  }

  /** The entry of player p once its connections and statistics are in. */
  function CompletedEntry(p: Name, players: seq<Name>, rows: seq<GoalRow>, totalGoalCount: nat): (e: PlayerEntry)
    ensures WellFormed(e) && e.name == p && e.columns == players
  {
    CollectPlayerInfo(CountedEntry(p, players, rows), rows, totalGoalCount)
  }

  /** `playerMap` after `buildPlayerMap` over a source of rows: entry i belongs
      to the i-th collected player. */
  function PlayerMapFor(rows: seq<GoalRow>): (playerMap: seq<PlayerEntry>)
    ensures |playerMap| == |CollectPlayers(rows)|
    ensures forall i :: 0 <= i < |playerMap| ==> WellFormed(playerMap[i])
  {
    var players := CollectPlayers(rows);
    seq(|players|, i requires 0 <= i < |players| => CompletedEntry(players[i], players, rows, |rows|))
  }

  /** The counts of an entry in the order of its columns (the inner loop of `reduceMapToArray`). */
  function RowOf(e: PlayerEntry): (row: seq<nat>)
    requires WellFormed(e)
    ensures |row| == |e.columns|
    ensures forall j :: 0 <= j < |row| ==> row[j] == e.connections[e.columns[j]]
  {
    seq(|e.columns|, j requires 0 <= j < |e.columns| => e.connections[e.columns[j]])
  }

  /** One row per entry, in index order (the outer loop of `reduceMapToArray`). */
  function MatrixOf(playerMap: seq<PlayerEntry>): (matrix: seq<seq<nat>>)
    requires forall i :: 0 <= i < |playerMap| ==> WellFormed(playerMap[i])
    ensures |matrix| == |playerMap|
    ensures forall i :: 0 <= i < |matrix| ==> matrix[i] == RowOf(playerMap[i])
  {
    seq(|playerMap|, i requires 0 <= i < |playerMap| => RowOf(playerMap[i]))
  }

  /** The matrix `getPlayerMatrix` returns for a source of rows. */
  function PlayerMatrix(rows: seq<GoalRow>): seq<seq<nat>>
  {
    MatrixOf(PlayerMapFor(rows))
  }

  /** The matrix is square with one row and one column per collected player,
      row i and column i both belong to the i-th player, and each entry is that
      pair's count under the production rule. */
  lemma PlayerMatrixEntries(rows: seq<GoalRow>)
    ensures var players, playerMap, matrix := CollectPlayers(rows), PlayerMapFor(rows), PlayerMatrix(rows);
      && |matrix| == |players|
      && (forall i :: 0 <= i < |players| ==> playerMap[i].name == players[i] && |matrix[i]| == |players|)
      && forall i, j :: 0 <= i < |players| && 0 <= j < |players| ==>
           matrix[i][j] == Connections(rows, players[i], players[j])
  {
  }

  /** When no name fills two slots of one row, the matrix is symmetric. */
  lemma PlayerMatrixSymmetric(rows: seq<GoalRow>)
    requires AllDistinctCredits(rows)
    ensures var matrix := PlayerMatrix(rows);
      forall i, j :: 0 <= i < |matrix| && 0 <= j < |matrix| ==> |matrix[i]| == |matrix| && matrix[i][j] == matrix[j][i]
  {
    PlayerMatrixEntries(rows);
    var players := CollectPlayers(rows);
    forall i, j | 0 <= i < |players| && 0 <= j < |players|
      ensures Connections(rows, players[i], players[j]) == Connections(rows, players[j], players[i])
    {
      ConnectionsSymmetric(rows, players[i], players[j]);
    }
  }

  /** The diagonal holds each player's unassisted goals; off the diagonal an entry
      counts the goals that credit both players. */
  lemma PlayerMatrixCounts(rows: seq<GoalRow>)
    requires AllDistinctCredits(rows)
    ensures var players, matrix := CollectPlayers(rows), PlayerMatrix(rows);
      && (forall i :: 0 <= i < |players| ==> matrix[i][i] == UnassistedGoals(rows, players[i]))
      && forall i, j :: 0 <= i < |players| && 0 <= j < |players| && i != j ==>
           matrix[i][j] == SourceTargetConnections(rows, players[i], players[j])
  {
    PlayerMatrixEntries(rows);
    var players := CollectPlayers(rows);
    forall i | 0 <= i < |players|
      ensures Connections(rows, players[i], players[i]) == UnassistedGoals(rows, players[i])
    {
      ConnectionsDiagonal(rows, players[i]);
    }
    forall i, j | 0 <= i < |players| && 0 <= j < |players| && i != j
      ensures Connections(rows, players[i], players[j]) == SourceTargetConnections(rows, players[i], players[j])
    {
      ConnectionsBetween(rows, players[i], players[j]);
    }
  }

  /** Every entry's goals count the rows it scored and its points the rows that
      credit it; each player has at least one point, and goals <= points <= the
      total goal count. */
  lemma PlayerMapStatistics(rows: seq<GoalRow>)
    ensures var players, playerMap := CollectPlayers(rows), PlayerMapFor(rows);
      forall i :: 0 <= i < |playerMap| ==>
        && playerMap[i].goals == Goals(rows, players[i])
        && playerMap[i].points == Points(rows, players[i])
        && 1 <= playerMap[i].points
        && playerMap[i].goals <= playerMap[i].points <= |rows|
        && playerMap[i].goalPercentage == Fraction(playerMap[i].goals, |rows|)
        && playerMap[i].involvement == Fraction(playerMap[i].points, |rows|)
  {
    var players := CollectPlayers(rows);
    forall i | 0 <= i < |players|
      ensures 1 <= Points(rows, players[i])
    {
      CollectPlayersArePointGetters(rows, players[i]);
    }
  }

  /** `buildPlayerMap` AS WRITTEN: entries 0..n-1 are overwritten with fresh ones,
      an entry a previous, larger source left at index n or beyond is kept, and
      every entry, kept ones included, is then counted over the new rows. */
  function PlayerMapAsWritten(previous: seq<PlayerEntry>, rows: seq<GoalRow>): (playerMap: seq<PlayerEntry>)
    ensures |playerMap| == if |previous| > |CollectPlayers(rows)| then |previous| else |CollectPlayers(rows)|
  {
    var players := CollectPlayers(rows);
    var size := if |previous| > |players| then |previous| else |players|;
    seq(size, i requires 0 <= i < size =>
      Recount(if i < |players| then FreshEntry(players[i], players) else previous[i], rows))
  }

  /** `collectAllConnections` then `collectPlayerInfo` on an entry, whatever counts it already holds. */
  function Recount(e: PlayerEntry, rows: seq<GoalRow>): PlayerEntry
  {
    CollectPlayerInfo(e.(connections := map k | k in e.connections :: e.connections[k] + Connections(rows, e.name, k)), rows, |rows|)
  }

  /** Counting a fresh entry gives the completed entry. */
  lemma RecountFresh(p: Name, players: seq<Name>, rows: seq<GoalRow>)
    ensures Recount(FreshEntry(p, players), rows) == CompletedEntry(p, players, rows, |rows|)
  {
    var e := FreshEntry(p, players);
    var counted := map k | k in e.connections :: e.connections[k] + Connections(rows, e.name, k);
    assert counted.Keys == (map k | k in players :: Connections(rows, p, k)).Keys;
    assert counted == map k | k in players :: Connections(rows, p, k);
    assert e.(connections := counted) == CountedEntry(p, players, rows);
  }

  /** As written, a source with at least as many players as the map already holds
      gives exactly the intended map; so calling `getPlayerMatrix` again on the
      same source gives the same map and matrix. */
  lemma {:induction false} AsWrittenMatchesWithoutStaleEntries(previous: seq<PlayerEntry>, rows: seq<GoalRow>)
    requires |previous| <= |CollectPlayers(rows)|
    ensures PlayerMapAsWritten(previous, rows) == PlayerMapFor(rows)
    ensures PlayerMapAsWritten(PlayerMapAsWritten(previous, rows), rows) == PlayerMapFor(rows)
  {
    var players := CollectPlayers(rows);
    var asWritten, intended := PlayerMapAsWritten(previous, rows), PlayerMapFor(rows);
    forall i | 0 <= i < |players|
      ensures asWritten[i] == intended[i]
    {
      RecountFresh(players[i], players, rows);
    }
    assert asWritten == intended;
  }

  /** As written, entries a previous, larger source left behind survive: the map,
      and so the matrix, has more rows than the new source has players. */
  lemma AsWrittenKeepsStaleEntries(previous: seq<PlayerEntry>, rows: seq<GoalRow>)
    requires |previous| > |CollectPlayers(rows)|
    ensures var playerMap := PlayerMapAsWritten(previous, rows);
      |playerMap| == |previous| > |CollectPlayers(rows)|
      && forall i :: |CollectPlayers(rows)| <= i < |previous| ==> playerMap[i].name == previous[i].name
  {
  }

  /** As written, a stale entry is counted again on every call: each of its
      counts grows by that player's count over the current rows. */
  lemma AsWrittenRecountsStaleEntries(previous: seq<PlayerEntry>, rows: seq<GoalRow>)
    requires |previous| > |CollectPlayers(rows)|
    ensures var playerMap := PlayerMapAsWritten(previous, rows);
      forall i, k :: |CollectPlayers(rows)| <= i < |previous| && k in previous[i].connections ==>
        && playerMap[i].name == previous[i].name
        && k in playerMap[i].connections
        && playerMap[i].connections[k] == previous[i].connections[k] + Connections(rows, previous[i].name, k)
  {
  }

  /** So, as written, once a stale entry's player scores unassisted in the current
      rows, calling `getPlayerMatrix` again on the same source changes the map:
      that entry's diagonal count grows on each call. */
  lemma AsWrittenRepeatedCallsDiffer(previous: seq<PlayerEntry>, rows: seq<GoalRow>, i: nat)
    requires |CollectPlayers(rows)| <= i < |previous|
    requires previous[i].name in previous[i].connections && UnassistedGoals(rows, previous[i].name) > 0
    ensures PlayerMapAsWritten(PlayerMapAsWritten(previous, rows), rows) != PlayerMapAsWritten(previous, rows)
  {
    var p := previous[i].name;
    var once := PlayerMapAsWritten(previous, rows);
    var twice := PlayerMapAsWritten(once, rows);
    ConnectionsDiagonal(rows, p);
    AsWrittenRecountsStaleEntries(previous, rows);
    assert once[i].name == p && once[i].connections[p] == previous[i].connections[p] + UnassistedGoals(rows, p);
    AsWrittenRecountsStaleEntries(once, rows);
    assert twice[i].connections[p] == once[i].connections[p] + UnassistedGoals(rows, p);
  }

  /** A concrete case: after a source naming two players, a source naming one
      leaves a map of two entries, where the intended map has one. */
  lemma StaleEntryExample()
    ensures var first := [GoalRow(Some("Crosby"), Some("Malkin"), None, "2014-10-09", "Anaheim")];
      var second := [GoalRow(Some("Crosby"), None, None, "2014-10-11", "Arizona")];
      |PlayerMapAsWritten(PlayerMapFor(first), second)| == 2 && |PlayerMapFor(second)| == 1
  {
    var first := [GoalRow(Some("Crosby"), Some("Malkin"), None, "2014-10-09", "Anaheim")];
    var second := [GoalRow(Some("Crosby"), None, None, "2014-10-11", "Arizona")];
    OnlyPlayers(first, ["Crosby", "Malkin"]);
    OnlyPlayers(second, ["Crosby"]);
  }

  /** Pins down the collected players of a source whose point-getters are known. */
  lemma OnlyPlayers(rows: seq<GoalRow>, names: seq<Name>)
    requires forall i, j :: 0 <= i < j < |names| ==> names[i] != names[j]
    requires forall p :: Points(rows, p) > 0 <==> p in names
    ensures |CollectPlayers(rows)| == |names|
  {
    var players := CollectPlayers(rows);
    forall p ensures p in players <==> p in names {
      CollectPlayersArePointGetters(rows, p);
    }
    DistinctSameSize(players, names);
  }

  /** Two repeat-free sequences with the same elements have the same length. */
  lemma DistinctSameSize(a: seq<Name>, b: seq<Name>)
    requires forall i, j :: 0 <= i < j < |a| ==> a[i] != a[j]
    requires forall i, j :: 0 <= i < j < |b| ==> b[i] != b[j]
    requires forall x :: x in a <==> x in b
    ensures |a| == |b|
  {
    DistinctCardinality(a);
    DistinctCardinality(b);
    assert (set x | x in a) == (set x | x in b);
  }

  lemma {:induction false} DistinctCardinality(a: seq<Name>)
    requires forall i, j :: 0 <= i < j < |a| ==> a[i] != a[j]
    ensures |set x | x in a| == |a|
  {
    if a != [] {
      var init := a[..|a| - 1];
      DistinctCardinality(init);
      assert (set x | x in a) == (set x | x in init) + {a[|a| - 1]};
    }
  }
}
