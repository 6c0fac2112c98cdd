/** The game server's state (app.py): the totals loop, one game whose round
    log is appended to and popped from, and the in-memory table of games
    that drops games idle for longer than the time-to-live. */
module ServerStore {
  import opened Wrappers
  import opened Ledger
  import opened ServerRules

  /** The inner loop of `get_totals` on its own: each pair of `scores`, in
      order, adds its delta to that name's running total (0 when absent). */
  function AddScores(totals: map<string, int>, scores: Scores): map<string, int>
    decreases |scores|
  {
    if scores == [] then totals
    else
      var t := AddScores(totals, scores[..|scores| - 1]);
      var e := scores[|scores| - 1];
      t[e.name := MapOr0(t, e.name) + e.delta]
  }

  /** Both loops of `get_totals`: the rounds, in order, each added pair by
      pair to the totals so far. */
  function AddRounds(totals: map<string, int>, rounds: seq<Round>): map<string, int>
    decreases |rounds|
  {
    if rounds == [] then totals
    else AddScores(AddRounds(totals, rounds[..|rounds| - 1]), rounds[|rounds| - 1].scores)
  }

  /** Adding a dictionary pair by pair adds its keys to the totals' keys. */
  lemma {:induction false} AddScoresKeys(m: map<string, int>, s: Scores)
    ensures AddScores(m, s).Keys == m.Keys + KeySet(s)
    decreases |s|
  {
    if s != [] {
      var init := s[..|s| - 1];
      AddScoresKeys(m, init);
      assert s == init + [s[|s| - 1]];
      assert Keys(s) == Keys(init) + [s[|s| - 1].name];
    }
  }

  /** Adding a dictionary pair by pair moves each name by the value stored
      under it. */
  lemma {:induction false} AddScoresAt(m: map<string, int>, s: Scores, n: string)
    requires UniqueNames(s)
    ensures MapOr0(AddScores(m, s), n) == MapOr0(m, n) + ValueOr0(s, n)
    decreases |s|
  {
    if s != [] {
      var k := |s| - 1;
      var init, e := s[..k], s[k];
      FreshInPrefix(s, k);
      UniquePrefix(s, k);
      AddScoresAt(m, init, n);
      assert s == init + [e];
      AppendEntry(init, e);
    }
  }

  /** Adding the rounds one after another to the initial scores gives each
      name its initial score plus all its deltas. */
  lemma {:induction false} AddRoundsAt(players: seq<Player>, rounds: seq<Round>, n: string)
    requires forall r | r in rounds :: UniqueNames(r.scores)
    ensures AddRounds(InitialTotals(players), rounds).Keys == InitialTotals(players).Keys + Mentioned(rounds)
    ensures MapOr0(AddRounds(InitialTotals(players), rounds), n) == TotalOf(players, rounds, n)
    decreases |rounds|
  {
    if rounds != [] {
      var init := rounds[..|rounds| - 1];
      AddRoundsAt(players, init, n);
      AddScoresKeys(AddRounds(InitialTotals(players), init), rounds[|rounds| - 1].scores);
      AddScoresAt(AddRounds(InitialTotals(players), init), rounds[|rounds| - 1].scores, n);
    }
  }

  /** The loops compute `Totals`. */
  lemma AddRoundsIsTotals(players: seq<Player>, rounds: seq<Round>)
    requires forall r | r in rounds :: UniqueNames(r.scores)
    ensures AddRounds(InitialTotals(players), rounds) == Totals(players, rounds)
  {
    var a, t := AddRounds(InitialTotals(players), rounds), Totals(players, rounds);
    AddRoundsAt(players, rounds, "");
    forall n | n in a ensures a[n] == t[n] {
      AddRoundsAt(players, rounds, n);
    }
  }

  /** One more pair of a round added to the running totals. */
  lemma AddScoresStep(m: map<string, int>, s: Scores, j: nat)
    requires j < |s|
    ensures AddScores(m, s[..j + 1])
         == AddScores(m, s[..j])[s[j].name := MapOr0(AddScores(m, s[..j]), s[j].name) + s[j].delta]
  {
    assert s[..j + 1][..j] == s[..j];
  }

  /** One more round added to the running totals. */
  lemma AddRoundsStep(m: map<string, int>, rounds: seq<Round>, i: nat)
    requires i < |rounds|
    ensures AddRounds(m, rounds[..i + 1]) == AddScores(AddRounds(m, rounds[..i]), rounds[i].scores)
  {
    assert rounds[..i + 1][..i] == rounds[..i];
  }

  /** `get_totals`: start from the initial scores, then add each round's
      deltas name by name. */
  method GetTotals(players: seq<Player>, rounds: seq<Round>) returns (totals: map<string, int>)
    requires forall r | r in rounds :: UniqueNames(r.scores)
    ensures totals == Totals(players, rounds)
  {
    totals := InitialTotals(players);
    ghost var init := totals;
    var i := 0;
    while i < |rounds|
      invariant 0 <= i <= |rounds|
      invariant totals == AddRounds(init, rounds[..i])
    {
      var scores := rounds[i].scores;
      ghost var start := totals;
      var j := 0;
      while j < |scores|
        invariant 0 <= j <= |scores|
        invariant totals == AddScores(start, scores[..j])
      {
        var e := scores[j];
        totals := totals[e.name := MapOr0(totals, e.name) + e.delta];
        AddScoresStep(start, scores, j);
        j := j + 1;
      }
      assert totals == AddRounds(init, rounds[..i + 1]) by {
        assert scores[..j] == scores;
        AddRoundsStep(init, rounds, i);
      }
      i := i + 1;
    }
    assert rounds[..i] == rounds;
    AddRoundsIsTotals(players, rounds);
  }

  /** One game's `game_state`. The players, the admin mode and its
      configuration are fixed when the game starts; the round log changes. */
  class Game {
    const players: seq<Player>
    const mode: AdminMode
    const config: AdminConfig
    const started: bool
    var rounds: seq<Round>

    function State(): GameState
      reads this
    {
      GameState(players, mode, config, rounds, started)
    }

    ghost predicate Valid()
      reads this
    {
      WellFormed(State())
    }

    /** `start_game`: a started game with the given players and admin
        settings and no rounds yet. */
    constructor Start(players: seq<Player>, mode: AdminMode, config: AdminConfig)
      ensures this.players == players && this.mode == mode && this.config == config
      ensures started && rounds == [] && Valid()
    {
      this.players, this.mode, this.config := players, mode, config;
      started := true;
      rounds := [];
    }

    /** `submit_round`: validate the score object and, when it is accepted,
        append it to the log with this round's admin and answer with the
        new snapshot; a rejected round leaves the log as it was. */
    method SubmitRound(code: string, raw: seq<RawEntry>, manualAdmin: Option<string>)
      returns (res: Result<StateView, SubmitError>)
      requires Valid() && AdminDefined(players, mode, config) && Distinct(RawKeys(raw))
      modifies this
      ensures Valid()
      ensures var a := Admit(old(State()), raw, manualAdmin);
              && (a.Success? ==> rounds == old(rounds) + [a.value] && res == Success(Snapshot(State(), code)))
              && (a.Failure? ==> rounds == old(rounds) && res == Failure(a.error))
      ensures res.Success? ==> res.value.roundNumber == old(Snapshot(State(), code)).roundNumber + 1
      ensures res.Success? && !mode.Manual? ==> rounds[|rounds| - 1].admin == old(Snapshot(State(), code)).nextAdmin
      ensures res.Success? ==>
        forall n :: MapOr0(res.value.totals, n)
                    == MapOr0(old(Snapshot(State(), code)).totals, n) + ValueOr0(rounds[|rounds| - 1].scores, n)
    {
      ghost var g := State();
      if !started {
        return Failure(NotStarted);
      }
      if raw == [] || !KeysArePlayers(RawKeys(raw), players) {
        return Failure(InvalidPlayers);
      }
      var i := 0;
      while i < |raw|
        invariant 0 <= i <= |raw|
        invariant forall k | 0 <= k < i :: raw[k].value.Some?
      {
        if raw[i].value.None? {
          FirstNonIntegerAt(raw, i);
          return Failure(NotInteger(raw[i].name));
        }
        i := i + 1;
      }
      var scores := AsScores(raw);
      var admin := if mode.Manual? then manualAdmin else AdminForRound(players, mode, config, |rounds|);
      if mode.NoAdmin? {
        var total := Sum(scores);
        if total != 0 {
          return Failure(ZeroSumViolated(total));
        }
      }
      AdmitKeepsWellFormed(g, raw, manualAdmin);
      SnapshotAfterAdmit(g, raw, manualAdmin, code);
      rounds := rounds + [Round(scores, admin)];
      res := Success(Snapshot(State(), code));
    }

    /** `undo_round`: remove the last round and answer with the new snapshot,
        or report that there is nothing to undo. */
    method Undo(code: string) returns (res: Result<StateView, UndoError>)
      requires Valid()
      modifies this
      ensures Valid()
      ensures old(rounds) == [] ==> rounds == [] && res == Failure(NothingToUndo)
      ensures old(rounds) != [] ==> AdminDefined(players, mode, config)
      ensures old(rounds) != [] ==>
        && rounds == old(rounds)[..|old(rounds)| - 1]
        && res == Success(Snapshot(State(), code))
    {
      if rounds != [] {
        WellFormedAdminDefined(State());
        UndoKeepsWellFormed(State());
        rounds := rounds[..|rounds| - 1];
        return Success(Snapshot(State(), code));
      }
      return Failure(NothingToUndo);
    }
  }

  /** Submitting a round and then undoing it restores the log, and so every
      total, to what it was. */
  method SubmitThenUndo(g: Game, code: string, raw: seq<RawEntry>, manualAdmin: Option<string>)
    requires g.Valid() && AdminDefined(g.players, g.mode, g.config) && Distinct(RawKeys(raw))
    modifies g
    ensures g.Valid()
    ensures g.rounds == old(g.rounds)
    ensures Totals(g.players, g.rounds) == old(Totals(g.players, g.rounds))
  {
    var submitted := g.SubmitRound(code, raw, manualAdmin);
    if submitted.Success? {
      ghost var before := old(g.rounds);
      assert g.rounds == before + [g.rounds[|g.rounds| - 1]];
      var undone := g.Undo(code);
      assert g.rounds == before;
    }
  }

  /** One entry of `games`: a game and the time of its last access. */
  datatype StoredGame = StoredGame(game: Game, lastAccess: real)

  /** A game is dropped once more than the time-to-live has passed since its
      last access. */
  predicate Expired(s: StoredGame, now: real) {
    now - s.lastAccess > GameTtlSeconds as real
  }

  /** The module-level `games` dictionary, keyed by join code. */
  class Registry {
    var games: map<string, StoredGame>

    constructor ()
      ensures games == map[]
    {
      games := map[];
    }

    /** `_cleanup_expired_games`, with the clock reading `now` as a
        parameter: collect the expired codes, then remove each of them. */
    method CleanupExpired(now: real)
      modifies this
      ensures forall c | c in games :: !Expired(games[c], now)
      ensures forall c | c in old(games) && !Expired(old(games)[c], now) :: c in games && games[c] == old(games)[c]
      ensures games.Keys <= old(games).Keys
    {
      var expired := set c | c in games && Expired(games[c], now);
      ghost var all := expired;
      while expired != {}
        invariant expired <= all
        invariant games.Keys == old(games).Keys - (all - expired)
        invariant forall c | c in games :: games[c] == old(games)[c]
        decreases expired
      {
        var c :| c in expired;
        games := games - {c};
        expired := expired - {c};
      }
    }
  }
}
