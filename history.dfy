/** The round history table of the game page (static/main.js,
    `renderHistoryTable`): each player's initial score is inferred from the
    totals, then the rounds are replayed in order. */
module History {
  import opened Wrappers
  import opened Ledger
  import ServerRules

  /** What the table shows: nothing when there are no rounds; otherwise one
      row of cells per round (a player's delta, or `None` for the dash of a
      missing key), with the inferred initial scores and the running totals
      after the last round. The page computes these two maps but displays
      only the cells. */
  datatype HistoryTable =
    | NoRounds
    | Table(cells: seq<seq<Option<int>>>, initial: map<string, int>, running: map<string, int>)

  /** The set of names in a list of names. */
  function NameSet(names: seq<string>): set<string> {
    set n | n in names
  }

  /** A round's deltas for the first `j` players, as the table's row shows
      them. */
  function Cells(players: seq<string>, r: Round, j: nat): (row: seq<Option<int>>)
    requires j <= |players|
    ensures |row| == j
    ensures forall p | 0 <= p < j :: (row[p].Some? <==> players[p] in Keys(r.scores))
    ensures forall p | 0 <= p < j :: row[p] == Get(r.scores, players[p])
    ensures forall p | 0 <= p < j :: row[p].Some? ==> Entry(players[p], row[p].value) in r.scores
  {
    var row := seq(j, p requires 0 <= p < j => Get(r.scores, players[p]));
    assert forall p | 0 <= p < j :: row[p].Some? ==> Entry(players[p], row[p].value) in r.scores by {
      forall p | 0 <= p < j { GetFound(r.scores, players[p]); }
    }
    row
  }

  /** The table's rows, one per round. */
  function CellRows(players: seq<string>, rounds: seq<Round>): (rows: seq<seq<Option<int>>>)
    ensures |rows| == |rounds|
    ensures forall k | 0 <= k < |rounds| :: rows[k] == Cells(players, rounds[k], |players|)
  {
    seq(|rounds|, k requires 0 <= k < |rounds| => Cells(players, rounds[k], |players|))
  }

  /** `initials_map` after the first `i` players: for each, the total (0
      when absent) minus the sum of that player's deltas over all rounds. */
  function Inferred(totals: map<string, int>, rounds: seq<Round>, players: seq<string>, i: nat): map<string, int>
    requires i <= |players|
  {
    if i == 0 then map[]
    else
      var n := players[i - 1];
      Inferred(totals, rounds, players, i - 1)[n := MapOr0(totals, n) - SumFor(rounds, n)]
  }

  /** The inferred initial scores have one entry per player name, and each
      is the total minus the player's deltas. */
  lemma {:induction false} InferredAt(totals: map<string, int>, rounds: seq<Round>, players: seq<string>, i: nat, n: string)
    requires i <= |players|
    ensures Inferred(totals, rounds, players, i).Keys == NameSet(players[..i])
    ensures n in players[..i] ==> Inferred(totals, rounds, players, i)[n] == MapOr0(totals, n) - SumFor(rounds, n)
  {
    if i > 0 {
      InferredAt(totals, rounds, players, i - 1, n);
      assert players[..i] == players[..i - 1] + [players[i - 1]];
      assert NameSet(players[..i]) == NameSet(players[..i - 1]) + {players[i - 1]};
    }
  }

  /** The inner loop of the replay after the first `j` players: each in turn
      gets the round's delta added to their running total (a missing key
      adds 0). */
  function ReplayRound(running: map<string, int>, players: seq<string>, r: Round, j: nat): map<string, int>
    requires j <= |players|
  {
    if j == 0 then running
    else
      var t := ReplayRound(running, players, r, j - 1);
      var n := players[j - 1];
      t[n := MapOr0(t, n) + Get(r.scores, n).GetOr(0)]
  }

  /** Both loops of the replay: the rounds, in order, each replayed for
      every player. */
  function Replay(running: map<string, int>, players: seq<string>, rounds: seq<Round>): map<string, int>
    decreases |rounds|
  {
    if rounds == [] then running
    else ReplayRound(Replay(running, players, rounds[..|rounds| - 1]), players, rounds[|rounds| - 1], |players|)
  }

  /** Replaying one round for the first `j` players keeps the keys when every
      player is already one, and with distinct players moves each of them by
      their delta in that round and nobody else. */
  lemma {:induction false} ReplayRoundAt(m: map<string, int>, players: seq<string>, r: Round, j: nat, n: string)
    requires j <= |players| && NameSet(players) <= m.Keys && Distinct(players)
    ensures ReplayRound(m, players, r, j).Keys == m.Keys
    ensures MapOr0(ReplayRound(m, players, r, j), n)
         == MapOr0(m, n) + (if n in players[..j] then ValueOr0(r.scores, n) else 0)
  {
    if j > 0 {
      ReplayRoundAt(m, players, r, j - 1, n);
      assert players[..j] == players[..j - 1] + [players[j - 1]];
      assert players[j - 1] in NameSet(players);
      assert players[j - 1] !in players[..j - 1];
    }
  }

  /** Replaying whole rounds: with distinct players, each player's running
      total moves by the sum of their deltas over those rounds. */
  lemma {:induction false} ReplayAt(m: map<string, int>, players: seq<string>, rounds: seq<Round>, n: string)
    requires NameSet(players) <= m.Keys && Distinct(players)
    ensures Replay(m, players, rounds).Keys == m.Keys
    ensures MapOr0(Replay(m, players, rounds), n) == MapOr0(m, n) + (if n in players then SumFor(rounds, n) else 0)
    decreases |rounds|
  {
    if rounds != [] {
      var init := rounds[..|rounds| - 1];
      ReplayAt(m, players, init, n);
      ReplayRoundAt(Replay(m, players, init), players, rounds[|rounds| - 1], |players|, n);
      assert players[..|players|] == players;
    }
  }

  /** One more player of a round's replay: their running total moves by
      their delta. */
  lemma ReplayRoundStep(m: map<string, int>, players: seq<string>, r: Round, j: nat)
    requires j < |players|
    ensures ReplayRound(m, players, r, j + 1)
         == ReplayRound(m, players, r, j)[players[j] := MapOr0(ReplayRound(m, players, r, j), players[j])
                                                        + Get(r.scores, players[j]).GetOr(0)]
  {
  }

  /** One more round of the replay: its row of cells, and the totals. */
  lemma ReplayStep(m: map<string, int>, players: seq<string>, rounds: seq<Round>, k: nat)
    requires k < |rounds|
    ensures CellRows(players, rounds[..k + 1]) == CellRows(players, rounds[..k]) + [Cells(players, rounds[k], |players|)]
    ensures Replay(m, players, rounds[..k + 1]) == ReplayRound(Replay(m, players, rounds[..k]), players, rounds[k], |players|)
  {
    assert rounds[..k + 1][..k] == rounds[..k];
  }

  /** The inner loop of `renderHistoryTable` for one round: each player's
      cell, and each player's running total moved by their delta. */
  method ReplayOneRound(start: map<string, int>, players: seq<string>, rnd: Round)
    returns (row: seq<Option<int>>, running: map<string, int>)
    ensures |row| == |players| && forall p | 0 <= p < |players| :: row[p] == Get(rnd.scores, players[p])
    ensures running == ReplayRound(start, players, rnd, |players|)
  {
    running := start;
    row := [];
    var j := 0;
    while j < |players|
      invariant 0 <= j <= |players|
      invariant |row| == j && forall p | 0 <= p < j :: row[p] == Get(rnd.scores, players[p])
      invariant running == ReplayRound(start, players, rnd, j)
    {
      var name := players[j];
      var delta := Get(rnd.scores, name);
      ReplayRoundStep(start, players, rnd, j);
      running := running[name := MapOr0(running, name) + delta.GetOr(0)];
      row := row + [delta];
      j := j + 1;
    }
  }

  /** `renderHistoryTable`: infer `initials_map`, then replay every round
      into `runningMap`, player by player, building the rows of cells. */
  method ReplayHistory(players: seq<string>, totals: map<string, int>, rounds: seq<Round>)
    returns (h: HistoryTable)
    ensures h.NoRounds? <==> rounds == []
    ensures h.Table? ==>
      && h.cells == CellRows(players, rounds)
      && h.initial == Inferred(totals, rounds, players, |players|)
      && h.running == Replay(h.initial, players, rounds)
  {
    if rounds == [] {
      return NoRounds;
    }
    var initial: map<string, int> := map[];
    var i := 0;
    while i < |players|
      invariant 0 <= i <= |players|
      invariant initial == Inferred(totals, rounds, players, i)
    {
      var n := players[i];
      initial := initial[n := MapOr0(totals, n) - SumFor(rounds, n)];
      i := i + 1;
    }

    var running := initial;
    var cells: seq<seq<Option<int>>> := [];
    var k := 0;
    while k < |rounds|
      invariant 0 <= k <= |rounds|
      invariant cells == CellRows(players, rounds[..k])
      invariant running == Replay(initial, players, rounds[..k])
    {
      var row;
      row, running := ReplayOneRound(running, players, rounds[k]);
      assert row == Cells(players, rounds[k], |players|);
      ReplayStep(initial, players, rounds, k);
      cells := cells + [row];
      k := k + 1;
    }
    assert rounds[..k] == rounds;
    return Table(cells, initial, running);
  }

  /** History round trip: with distinct player names, replaying every round
      from the inferred initial scores ends at the totals the server sent,
      for every player (a missing total counting as 0). */
  lemma HistoryRoundTrip(players: seq<string>, totals: map<string, int>, rounds: seq<Round>, n: string)
    requires Distinct(players) && n in players
    ensures var initial := Inferred(totals, rounds, players, |players|);
      && n in initial && initial[n] == MapOr0(totals, n) - SumFor(rounds, n)
      && Replay(initial, players, rounds).Keys == NameSet(players)
      && Replay(initial, players, rounds)[n] == MapOr0(totals, n)
  {
    assert players[..|players|] == players;
    InferredAt(totals, rounds, players, |players|, n);
    ReplayAt(Inferred(totals, rounds, players, |players|), players, rounds, n);
  }

  /** When the totals are the server's, the inferred initial score of every
      player is the score that player started with (player names distinct). */
  lemma InferredInitialIsInitial(players: seq<Player>, rounds: seq<Round>, i: nat)
    requires Distinct(PlayerNames(players)) && i < |players|
    ensures var n := players[i].name;
      MapOr0(ServerRules.Totals(players, rounds), n) - SumFor(rounds, n) == players[i].initial
  {
    ServerRules.TotalsIdentity(players, rounds, i);
  }
}
