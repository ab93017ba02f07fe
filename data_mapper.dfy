/**
 * The data mapper module as an object: the source rows, the goal total and the
 * player map are its fields, and its public functions are methods.
 */
module DataMappers {
  import opened Wrappers
  import opened ScoreSheet
  import opened Shares
  import opened Entries
  import opened ConnectionCounts
  import opened PlayerMaps
  import opened Tooltips

  /** The message `getPlayerMatrix` throws when no source has been set. */
  const SourceNotSet := "A data source must be set before any data manipulations can be made."

  class DataMapper {
    /** The rows handed to `setSource`; None while the source is still null. */
    var dataSource: Option<seq<GoalRow>>
    /** One entry per player, indexed from 0. */
    var playerMap: seq<PlayerEntry>
    var totalGoalCount: nat

    ghost predicate Valid()
      reads this
    {
      && totalGoalCount == (if dataSource.Some? then |dataSource.value| else 0)
      && forall i :: 0 <= i < |playerMap| ==> WellFormed(playerMap[i])
    }

    /** The module's initial state: no source, an empty map, a total of 0. */
    constructor ()
      ensures Valid()
      ensures dataSource == None && playerMap == [] && totalGoalCount == 0
    {
      dataSource := None;
      playerMap := [];
      totalGoalCount := 0;
    }

    /** `setSource`: stores the rows and sets the goal total to their number. */
    method SetSource(csvData: seq<GoalRow>)
      requires Valid()
      modifies this
      ensures Valid()
      ensures dataSource == Some(csvData) && totalGoalCount == |csvData| && playerMap == old(playerMap)
    {
      dataSource := Some(csvData);
      totalGoalCount := |csvData|;
    }

    /** `lastUpdate`: "<date> against <opponent>" of the last row. */
    method LastUpdate() returns (text: string)
      requires dataSource.Some? && dataSource.value != []
      ensures text == LastUpdateText(dataSource.value)
    {
      text := LastUpdateText(dataSource.value);
    }

    /** `getTotalGoalCount`: the number of rows of the source, 0 before one is set. */
    method GetTotalGoalCount() returns (count: nat)
      requires Valid()
      ensures dataSource.Some? ==> count == |dataSource.value|
      ensures dataSource.None? ==> count == 0
    {
      count := totalGoalCount;
    }

    /** `getPlayerMatrix`: rebuilds the map from the source and reads the matrix off
        it, or fails when no source was ever set. */
    method GetPlayerMatrix() returns (result: Result<seq<seq<nat>>>)
      requires Valid()
      modifies this`playerMap
      ensures Valid() && dataSource == old(dataSource) && totalGoalCount == old(totalGoalCount)
      ensures dataSource.None? ==> result == Err(SourceNotSet) && playerMap == old(playerMap)
      ensures dataSource.Some? ==>
        playerMap == PlayerMapFor(dataSource.value) && result == Ok(PlayerMatrix(dataSource.value))
      ensures dataSource == Some([]) ==> result == Ok([])
    {
      if dataSource.Some? {
        BuildPlayerMap();
        var matrix := ReduceMapToArray();
        result := Ok(matrix);
      } else {
        result := Err(SourceNotSet);
      }
    }

    /** `buildPlayerMap`: one fresh entry per collected player with every count at 0,
        then the connections of every entry, then its statistics. The new map
        replaces the old one whole (see the stale-entry finding in PlayerMaps). */
    method BuildPlayerMap()
      requires Valid() && dataSource.Some?
      modifies this`playerMap
      ensures Valid() && dataSource == old(dataSource) && totalGoalCount == old(totalGoalCount)
      ensures playerMap == PlayerMapFor(dataSource.value)
    {
      var rows := dataSource.value;
      var players := CollectPlayers(rows);
      var built := FreshEntries(players);
      built := CountEachConnections(built, players, rows);
      built := CollectEachPlayerInfo(built, players, rows, totalGoalCount);
      playerMap := built;
    }

    /** `reduceMapToArray`: each entry's counts in column order, entry by entry. */
    method ReduceMapToArray() returns (matrix: seq<seq<nat>>)
      requires Valid()
      ensures matrix == MatrixOf(playerMap)
    {
      matrix := [];
      var i := 0;
      while i < |playerMap|
        invariant 0 <= i <= |playerMap| && |matrix| == i
        invariant forall k :: 0 <= k < i ==> matrix[k] == RowOf(playerMap[k])
      {
        var player := playerMap[i];
        var connections: seq<nat> := [];
        var j := 0;
        while j < |player.columns|
          invariant 0 <= j <= |player.columns|
          invariant connections == RowOf(player)[..j]
        {
          connections := connections + [player.connections[player.columns[j]]];
          j := j + 1;
        }
        matrix := matrix + [connections];
        i := i + 1;
      }
    }

    /** `getPlayerName`: the name of the entry at an index. */
    method GetPlayerName(index: nat) returns (name: Name)
      requires index < |playerMap|
      ensures name == playerMap[index].name
    {
      name := playerMap[index].name;
    }

    /** `setPlayerInfo`: the summary text of the entry at an index. */
    method SetPlayerInfo(index: nat) returns (text: string)
      requires index < |playerMap|
      ensures text == PlayerInfoText(playerMap[index])
    {
      text := PlayerInfoText(playerMap[index]);
    }

    /** `setChordInfo`: the summary text of a chord. */
    method SetChordInfo(chord: Chord) returns (text: string)
      requires chord.source.index < |playerMap| && chord.target.index < |playerMap|
      ensures text == ChordText(CollectChordInfo(playerMap, chord))
    {
      text := ChordText(CollectChordInfo(playerMap, chord));
    }
  }

  /** The first loop of `buildPlayerMap`: entry i is a fresh entry for the i-th player. */
  method FreshEntries(players: seq<Name>) returns (built: seq<PlayerEntry>)
    ensures |built| == |players|
    ensures forall k :: 0 <= k < |players| ==> built[k] == FreshEntry(players[k], players)
  {
    built := [];
    var i := 0;
    while i < |players|
      invariant 0 <= i <= |players| && |built| == i
      invariant forall k :: 0 <= k < i ==> built[k] == FreshEntry(players[k], players)
    {
      var entry := ZeroedEntry(players[i], players);
      built := built + [entry];
      i := i + 1;
    }
  }

  /** `_.each(playerMap, collectAllConnections)` over fresh entries. */
  method CountEachConnections(zeroed: seq<PlayerEntry>, players: seq<Name>, rows: seq<GoalRow>) returns (built: seq<PlayerEntry>)
    requires |zeroed| == |players|
    requires forall k :: 0 <= k < |players| ==> zeroed[k] == FreshEntry(players[k], players)
    ensures |built| == |players|
    ensures forall k :: 0 <= k < |players| ==> built[k] == CountedEntry(players[k], players, rows)
  {
    built := zeroed;
    var i := 0;
    while i < |built|
      invariant 0 <= i <= |built| == |players|
      invariant forall k :: 0 <= k < i ==> built[k] == CountedEntry(players[k], players, rows)
      invariant forall k :: i <= k < |built| ==> built[k] == FreshEntry(players[k], players)
    {
      var player := CollectAllConnections(built[i], rows);
      CountedFromFresh(player, players[i], players, rows);
      built := built[i := player];
      i := i + 1;
    }
  }

  /** A fresh entry with the production rule's counts added is the counted entry. */
  lemma CountedFromFresh(player: PlayerEntry, p: Name, players: seq<Name>, rows: seq<GoalRow>)
    requires player == FreshEntry(p, players).(connections := player.connections)
    requires player.connections.Keys == FreshEntry(p, players).connections.Keys
    requires forall k :: k in FreshEntry(p, players).connections ==>
      player.connections[k] == FreshEntry(p, players).connections[k] + Connections(rows, p, k)
    ensures player == CountedEntry(p, players, rows)
  {
    assert player.connections == CountedEntry(p, players, rows).connections;
  }

  /** `_.each(playerMap, collectPlayerInfo)` over counted entries. */
  method CollectEachPlayerInfo(counted: seq<PlayerEntry>, players: seq<Name>, rows: seq<GoalRow>, totalGoalCount: nat)
    returns (built: seq<PlayerEntry>)
    requires |counted| == |players|
    requires forall k :: 0 <= k < |players| ==> counted[k] == CountedEntry(players[k], players, rows)
    ensures |built| == |players|
    ensures forall k :: 0 <= k < |players| ==> built[k] == CompletedEntry(players[k], players, rows, totalGoalCount)
  {
    built := counted;
    var i := 0;
    while i < |built|
      invariant 0 <= i <= |built| == |players|
      invariant forall k :: 0 <= k < i ==> built[k] == CompletedEntry(players[k], players, rows, totalGoalCount)
      invariant forall k :: i <= k < |built| ==> built[k] == CountedEntry(players[k], players, rows)
    {
      built := built[i := CollectPlayerInfo(built[i], rows, totalGoalCount)];
      i := i + 1;
    }
  }

  /** The object `buildPlayerMap` puts at one index: the player's name and every
      collected player's count set to 0. */
  method ZeroedEntry(player: Name, players: seq<Name>) returns (entry: PlayerEntry)
    ensures entry == FreshEntry(player, players)
  {
    var connections: map<Name, nat> := map[];
    var j := 0;
    while j < |players|
      invariant 0 <= j <= |players|
      invariant connections == map p | p in players[..j] :: 0
    {
      assert players[..j + 1] == players[..j] + [players[j]];
      connections := connections[players[j] := 0];
      j := j + 1;
    }
    assert players[..j] == players;
    entry := PlayerEntry(player, players, connections, 0, 0, NaN, NaN);
  }

  /** Two calls of `getPlayerMatrix` on one source give the same matrix, and before
      any source is set the call fails. */
  method RepeatedMatrix(rows: seq<GoalRow>)
  {
    var mapper := new DataMapper();
    var unset := mapper.GetPlayerMatrix();
    assert unset == Err(SourceNotSet);
    mapper.SetSource(rows);
    var first := mapper.GetPlayerMatrix();
    var second := mapper.GetPlayerMatrix();
    assert first == second == Ok(PlayerMatrix(rows));
    var total := mapper.GetTotalGoalCount();
    assert total == |rows|;
  }
}
