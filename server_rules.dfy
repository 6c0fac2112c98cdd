/** The game server's scoring rules (app.py) as functions of values: the
    totals, the admin schedule, which submitted rounds are accepted, and the
    state snapshot sent back to the browser. */
module ServerRules {
  import opened Wrappers
  import opened Ledger

  /** How long a game stays in memory after its last access (`GAME_TTL_SECONDS`). */
  const GameTtlSeconds: int := 6 * 60 * 60

  /** The stored `game_state` of one game. */
  datatype GameState = GameState(
    players: seq<Player>,
    mode: AdminMode,
    config: AdminConfig,
    rounds: seq<Round>,
    started: bool)

  // ---------------------------------------------------------------- totals

  /** The dictionary from each player's name to their initial score: a later
      player with the same name overwrites an earlier one. */
  function InitialTotals(players: seq<Player>): (m: map<string, int>)
    ensures m.Keys == set n | n in PlayerNames(players)
  {
    if players == [] then map[]
    else
      var init := players[..|players| - 1];
      var last := players[|players| - 1];
      assert PlayerNames(players) == PlayerNames(init) + [last.name];
      InitialTotals(init)[last.name := last.initial]
  }

  /** With distinct names, each player's entry is their own initial score. */
  lemma {:induction false} InitialScoreOf(players: seq<Player>, i: nat)
    requires Distinct(PlayerNames(players)) && i < |players|
    ensures InitialTotals(players)[players[i].name] == players[i].initial
  {
    var k := |players| - 1;
    if i < k {
      var init := players[..k];
      assert PlayerNames(players) == PlayerNames(init) + [players[k].name];
      assert players[i].name == PlayerNames(players)[i] != PlayerNames(players)[k];
      InitialScoreOf(init, i);
    }
  }

  /** A name's total: its initial score (0 for a name that is not a player)
      plus every delta recorded for it, in round order. */
  function TotalOf(players: seq<Player>, rounds: seq<Round>, n: string): int {
    MapOr0(InitialTotals(players), n) + SumFor(rounds, n)
  }

  /** What `get_totals` returns: one total for every player and for every
      name that occurs in some round. */
  function Totals(players: seq<Player>, rounds: seq<Round>): map<string, int> {
    map n | n in InitialTotals(players).Keys + Mentioned(rounds) :: TotalOf(players, rounds, n)
  }

  /** A name that no round mentions has no deltas. */
  lemma {:induction false} SumForUnmentioned(rounds: seq<Round>, n: string)
    requires n !in Mentioned(rounds)
    ensures SumFor(rounds, n) == 0
  {
    if rounds != [] {
      SumForUnmentioned(rounds[..|rounds| - 1], n);
    }
  }

  /** Totals identity: with distinct player names, every player's total is
      their initial score plus the sum of their deltas over all rounds. */
  lemma TotalsIdentity(players: seq<Player>, rounds: seq<Round>, i: nat)
    requires Distinct(PlayerNames(players)) && i < |players|
    ensures players[i].name in Totals(players, rounds)
    ensures Totals(players, rounds)[players[i].name] == players[i].initial + SumFor(rounds, players[i].name)
  {
    assert PlayerNames(players)[i] == players[i].name;
    InitialScoreOf(players, i);
  }

  /** Appending a round moves every total by that round's delta for the name
      (0 when the name is absent) and adds the round's keys. */
  lemma {:induction false} TotalsAfterRound(players: seq<Player>, rounds: seq<Round>, r: Round)
    ensures Totals(players, rounds + [r]).Keys == Totals(players, rounds).Keys + KeySet(r.scores)
    ensures forall n :: MapOr0(Totals(players, rounds + [r]), n)
                        == MapOr0(Totals(players, rounds), n) + ValueOr0(r.scores, n)
  {
    var rs := rounds + [r];
    assert rs[..|rs| - 1] == rounds;
    forall n
      ensures MapOr0(Totals(players, rs), n) == MapOr0(Totals(players, rounds), n) + ValueOr0(r.scores, n)
    {
      if n !in Totals(players, rounds) {
        SumForUnmentioned(rounds, n);
        if n !in KeySet(r.scores) {
          assert Get(r.scores, n).None?;
        }
      }
    }
  }

  // ------------------------------------------------------ admin schedule

  /** The configuration values with their defaults: fixed index 0, a
      rotation every 1 round, starting at position 0. */
  function FixedIndexOf(c: AdminConfig): int { c.fixedIndex.GetOr(0) }
  function EveryOf(c: AdminConfig): int { c.every.GetOr(1) }
  function StartOf(c: AdminConfig): int { c.start.GetOr(0) }

  /** Python's `a // b`, which rounds toward negative infinity. */
  function FloorDiv(a: int, b: int): (q: int)
    requires b != 0
    ensures b > 0 ==> q * b <= a < q * b + b
    ensures b < 0 ==> q * b + b < a <= q * b
  {
    if b > 0 then a / b else (-a) / (-b)
  }

  /** Python's `xs[i]`: a negative index counts from the end. */
  function PyIndex<T>(xs: seq<T>, i: int): (x: T)
    requires -|xs| <= i < |xs|
    ensures x in xs
    ensures x == xs[i % |xs|]
    ensures 0 <= i ==> x == xs[i]
  {
    if i >= 0 then xs[i] else xs[|xs| + i]
  }

  /** `get_admin_for_round` raises instead of answering when a fixed index is
      out of range, or when a rotation has no players or `every == 0`. */
  predicate AdminDefined(players: seq<Player>, mode: AdminMode, config: AdminConfig) {
    match mode
    case Fixed => -|players| <= FixedIndexOf(config) < |players|
    case Rotating => |players| > 0 && EveryOf(config) != 0
    case _ => true
  }

  /** The rotation's position: the start moved on by one place for every
      completed block of `every` rounds, around the players. */
  function RotatingIndex(count: nat, config: AdminConfig, roundIndex: nat): (k: nat)
    requires count > 0 && EveryOf(config) != 0
    ensures k < count
  {
    (StartOf(config) + FloorDiv(roundIndex, EveryOf(config))) % count
  }

  /** `get_admin_for_round`: the admin of the round with 0-based index
      `roundIndex`; none in `none`, `manual` and unrecognised modes. */
  function AdminForRound(players: seq<Player>, mode: AdminMode, config: AdminConfig, roundIndex: nat)
    : (admin: Option<string>)
    requires AdminDefined(players, mode, config)
    ensures admin.Some? <==> mode.Fixed? || mode.Rotating?
    ensures admin.Some? ==> admin.value in PlayerNames(players)
    ensures mode.Fixed? ==> admin == Some(players[FixedIndexOf(config) % |players|].name)
    ensures mode.Rotating? ==> admin == Some(players[RotatingIndex(|players|, config, roundIndex)].name)
  {
    match mode
    case Fixed => Some(PyIndex(PlayerNames(players), FixedIndexOf(config)))
    case Rotating => Some(PlayerNames(players)[RotatingIndex(|players|, config, roundIndex)])
    case _ => None
  }

  /** In fixed mode every round has the same admin. */
  lemma FixedAdminEveryRound(players: seq<Player>, config: AdminConfig, i: nat, j: nat)
    requires AdminDefined(players, Fixed, config)
    ensures AdminForRound(players, Fixed, config, i) == AdminForRound(players, Fixed, config, j)
  {
  }

  /** The quotient and remainder of Euclidean division are unique. */
  lemma DivModUnique(x: int, e: int, q: int, j: int)
    requires e > 0 && 0 <= j < e && x == q * e + j
    ensures x / e == q && x % e == j
  {
    var q', j' := x / e, x % e;
    var d := q - q';
    assert d * e == j' - j by {
      assert x == q' * e + j';
      assert q * e - q' * e == d * e;
    }
    if d > 0 {
      MulAtLeast(d, e);
    } else if d < 0 {
      MulAtLeast(-d, e);
    }
  }

  lemma MulAtLeast(a: int, e: int)
    requires a >= 1 && e > 0
    ensures a * e >= e && (-a) * e == -(a * e)
  {
  }

  /** With `every > 0`, the rounds `q * every` to `q * every + every - 1`
      all have the player at `(start + q) % len(players)` as admin. */
  lemma RotationBlock(count: nat, config: AdminConfig, q: nat, j: nat)
    requires count > 0 && EveryOf(config) > 0 && j < EveryOf(config)
    ensures RotatingIndex(count, config, q * EveryOf(config) + j) == (StartOf(config) + q) % count
  {
    DivModUnique(q * EveryOf(config) + j, EveryOf(config), q, j);
  }

  /** Moving on by one position in a cycle of `count` places. */
  lemma ModSucc(a: int, count: int)
    requires count > 0
    ensures (a + 1) % count == (a % count + 1) % count
  {
    var q, m := a / count, a % count;
    if m + 1 < count {
      DivModUnique(a + 1, count, q, m + 1);
      DivModUnique(m + 1, count, 0, m + 1);
    } else {
      DivModUnique(a + 1, count, q + 1, 0);
      DivModUnique(m + 1, count, 1, 0);
    }
  }

  /** With `every > 0` the admin stays put for `every` rounds and then
      passes to the next player, cyclically. */
  lemma {:induction false} RotationSchedule(count: nat, config: AdminConfig, roundIndex: nat)
    requires count > 0 && EveryOf(config) > 0
    ensures RotatingIndex(count, config, roundIndex + 1)
            == if (roundIndex + 1) % EveryOf(config) == 0
               then (RotatingIndex(count, config, roundIndex) + 1) % count
               else RotatingIndex(count, config, roundIndex)
  {
    var e := EveryOf(config);
    var q, j := roundIndex / e, roundIndex % e;
    assert roundIndex == q * e + j;
    RotationBlock(count, config, q, j);
    if j + 1 < e {
      RotationBlock(count, config, q, j + 1);
      DivModUnique(roundIndex + 1, e, q, j + 1);
    } else {
      assert (q + 1) * e + 0 == roundIndex + 1 by {
        assert (q + 1) * e == q * e + e;
      }
      RotationBlock(count, config, q + 1, 0);
      DivModUnique(roundIndex + 1, e, q + 1, 0);
      ModSucc(StartOf(config) + q, count);
    }
  }

  // ------------------------------------------------------ round admission

  /** One pair of a submitted `scores` object after JSON decoding; `value` is
      `None` when the decoded value is not an integer. */
  datatype RawEntry = RawEntry(name: string, value: Option<int>)

  datatype SubmitError = NotStarted | InvalidPlayers | NotInteger(name: string) | ZeroSumViolated(total: int)

  datatype UndoError = NothingToUndo

  function RawKeys(raw: seq<RawEntry>): (keys: seq<string>)
    ensures |keys| == |raw|
    ensures forall i | 0 <= i < |raw| :: keys[i] == raw[i].name
  {
    seq(|raw|, i requires 0 <= i < |raw| => raw[i].name)
  }

  predicate AllIntegers(raw: seq<RawEntry>) {
    forall i | 0 <= i < |raw| :: raw[i].value.Some?
  }

  /** The first name whose value is not an integer, if any. */
  function FirstNonInteger(raw: seq<RawEntry>): (r: Option<string>)
    ensures r.None? <==> AllIntegers(raw)
  {
    if raw == [] then None
    else if raw[0].value.None? then Some(raw[0].name)
    else
      assert forall i | 1 <= i < |raw| :: raw[1..][i - 1] == raw[i];
      FirstNonInteger(raw[1..])
  }

  /** The first non-integer value is the one at the first index where one occurs. */
  lemma {:induction false} FirstNonIntegerAt(raw: seq<RawEntry>, k: nat)
    requires k < |raw| && raw[k].value.None?
    requires forall i | 0 <= i < k :: raw[i].value.Some?
    ensures FirstNonInteger(raw) == Some(raw[k].name)
  {
    if k > 0 {
      FirstNonIntegerAt(raw[1..], k - 1);
    }
  }

  /** A validated score object as the dictionary the server stores. */
  function AsScores(raw: seq<RawEntry>): (s: Scores)
    requires AllIntegers(raw)
    ensures Keys(s) == RawKeys(raw)
    ensures forall i | 0 <= i < |raw| :: s[i] == Entry(raw[i].name, raw[i].value.value)
  {
    if raw == [] then []
    else [Entry(raw[0].name, raw[0].value.value)] + AsScores(raw[1..])
  }

  /** Every key names a player. */
  predicate KeysArePlayers(keys: seq<string>, players: seq<Player>) {
    forall k | k in keys :: k in PlayerNames(players)
  }

  /** The admin recorded with the next round: the request's own admin in
      manual mode, the scheduled one otherwise. */
  function NextRoundAdmin(g: GameState, manualAdmin: Option<string>): (admin: Option<string>)
    requires AdminDefined(g.players, g.mode, g.config)
    ensures g.mode.Manual? ==> admin == manualAdmin
    ensures g.mode.NoAdmin? || g.mode.Unrecognised? ==> admin.None?
    ensures g.mode.Fixed? || g.mode.Rotating? ==> admin.Some? && admin.value in PlayerNames(g.players)
    ensures g.mode.Rotating? ==> admin == Some(g.players[RotatingIndex(|g.players|, g.config, |g.rounds|)].name)
    ensures g.mode.Fixed? ==> admin == Some(g.players[FixedIndexOf(g.config) % |g.players|].name)
    ensures !g.mode.Manual? ==> admin == AdminForRound(g.players, g.mode, g.config, |g.rounds|)
  {
    if g.mode.Manual? then manualAdmin else AdminForRound(g.players, g.mode, g.config, |g.rounds|)
  }

  /** The validation of `submit_round`, checks in the source's order: the game
      has started; the score object is non-empty and names only players; every
      value is an integer; in `none` mode the values sum to 0. */
  function Admit(g: GameState, raw: seq<RawEntry>, manualAdmin: Option<string>): (r: Result<Round, SubmitError>)
    requires AdminDefined(g.players, g.mode, g.config)
    ensures r.Success? <==>
      && g.started && raw != [] && KeysArePlayers(RawKeys(raw), g.players) && AllIntegers(raw)
      && (g.mode.NoAdmin? ==> Sum(AsScores(raw)) == 0)
    ensures r.Success? ==> r.value == Round(AsScores(raw), NextRoundAdmin(g, manualAdmin))
    ensures r == Failure(NotStarted) <==> !g.started
    ensures r == Failure(InvalidPlayers) <==>
      g.started && (raw == [] || !KeysArePlayers(RawKeys(raw), g.players))
    ensures r.Failure? && r.error.NotInteger? ==> FirstNonInteger(raw) == Some(r.error.name)
    ensures r.Failure? && r.error.ZeroSumViolated? ==>
      g.mode.NoAdmin? && AllIntegers(raw) && r.error.total == Sum(AsScores(raw)) && r.error.total != 0
  {
    if !g.started then Failure(NotStarted)
    else if raw == [] || !KeysArePlayers(RawKeys(raw), g.players) then Failure(InvalidPlayers)
    else if FirstNonInteger(raw).Some? then Failure(NotInteger(FirstNonInteger(raw).value))
    else if g.mode.NoAdmin? && Sum(AsScores(raw)) != 0 then Failure(ZeroSumViolated(Sum(AsScores(raw))))
    else Success(Round(AsScores(raw), NextRoundAdmin(g, manualAdmin)))
  }

  /** The invariant every stored game keeps: each round is a non-empty
      dictionary over player names, sums to 0 in `none` mode, and outside
      manual mode carries the admin the schedule gives for its index. */
  predicate RoundFits(g: GameState, i: nat)
    requires i < |g.rounds|
  {
    var r := g.rounds[i];
    && r.scores != []
    && UniqueNames(r.scores)
    && KeysArePlayers(Keys(r.scores), g.players)
    && (g.mode.NoAdmin? ==> Sum(r.scores) == 0)
    && (!g.mode.Manual? ==>
          AdminDefined(g.players, g.mode, g.config)
          && r.admin == AdminForRound(g.players, g.mode, g.config, i))
  }

  predicate WellFormed(g: GameState) {
    forall i: nat | i < |g.rounds| :: RoundFits(g, i)
  }

  /** Accepting a round keeps a game well formed. */
  lemma AdmitKeepsWellFormed(g: GameState, raw: seq<RawEntry>, manualAdmin: Option<string>)
    requires WellFormed(g) && AdminDefined(g.players, g.mode, g.config) && Distinct(RawKeys(raw))
    requires Admit(g, raw, manualAdmin).Success?
    ensures WellFormed(g.(rounds := g.rounds + [Admit(g, raw, manualAdmin).value]))
  {
    var g' := g.(rounds := g.rounds + [Admit(g, raw, manualAdmin).value]);
    forall i: nat | i < |g'.rounds| ensures RoundFits(g', i) {
      if i < |g.rounds| {
        assert RoundFits(g, i);
        assert g'.rounds[i] == g.rounds[i];
      }
    }
  }

  /** Removing the last round keeps a game well formed. */
  lemma UndoKeepsWellFormed(g: GameState)
    requires WellFormed(g) && g.rounds != []
    ensures WellFormed(g.(rounds := g.rounds[..|g.rounds| - 1]))
  {
    var g' := g.(rounds := g.rounds[..|g.rounds| - 1]);
    forall i: nat | i < |g'.rounds| ensures RoundFits(g', i) {
      assert RoundFits(g, i);
    }
  }

  /** A well-formed game with rounds can always compute its admin. */
  lemma WellFormedAdminDefined(g: GameState)
    requires WellFormed(g) && g.rounds != []
    ensures AdminDefined(g.players, g.mode, g.config)
  {
    assert RoundFits(g, 0);
  }

  // ------------------------------------------------------------ snapshot

  /** `_state_response`: the snapshot of a game sent to the browser. */
  function Snapshot(g: GameState, code: string): (v: StateView)
    requires AdminDefined(g.players, g.mode, g.config)
    ensures v.started == g.started && v.gameCode == code && v.rounds == g.rounds
    ensures v.mode == g.mode && v.config == g.config
    ensures |v.players| == |g.players| && forall i | 0 <= i < |g.players| :: v.players[i] == g.players[i].name
    ensures v.roundNumber == |g.rounds| + 1 && v.roundNumber >= 1
    ensures forall n | n in v.totals :: v.totals[n] == TotalOf(g.players, g.rounds, n)
    ensures forall i | 0 <= i < |g.players| :: g.players[i].name in v.totals
    ensures forall n | n in v.totals :: n in v.players || n in Mentioned(g.rounds)
    ensures forall n | n in Mentioned(g.rounds) :: n in v.totals
    ensures v.nextAdmin.Some? <==> g.mode.Fixed? || g.mode.Rotating?
    ensures v.nextAdmin.Some? ==> v.nextAdmin.value in v.players
    ensures !g.mode.Manual? ==> v.nextAdmin == AdminForRound(g.players, g.mode, g.config, |g.rounds|)
  {
    StateView(
      g.started, code, PlayerNames(g.players), g.mode, g.config, g.rounds,
      Totals(g.players, g.rounds),
      if g.mode.Manual? then None else AdminForRound(g.players, g.mode, g.config, |g.rounds|),
      |g.rounds| + 1)
  }

  /** After an accepted round the snapshot's round number is one higher, every
      total has moved by the round's delta, and outside manual mode the round
      was recorded with exactly the admin the previous snapshot announced. */
  lemma {:induction false} SnapshotAfterAdmit(g: GameState, raw: seq<RawEntry>, manualAdmin: Option<string>, code: string)
    requires AdminDefined(g.players, g.mode, g.config)
    requires Admit(g, raw, manualAdmin).Success?
    ensures var r := Admit(g, raw, manualAdmin).value;
            var before := Snapshot(g, code);
            var after := Snapshot(g.(rounds := g.rounds + [r]), code);
            && after.roundNumber == before.roundNumber + 1
            && (forall n :: MapOr0(after.totals, n) == MapOr0(before.totals, n) + ValueOr0(r.scores, n))
            && (!g.mode.Manual? ==> r.admin == before.nextAdmin)
  {
    TotalsAfterRound(g.players, g.rounds, Admit(g, raw, manualAdmin).value);
  }
}
