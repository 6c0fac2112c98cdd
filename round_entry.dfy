/** Turning the score inputs of the game page into a round's score object
    (static/main.js): `collectScores` with the zero-sum gate of
    `submitRoundNoAdmin`, and the win/lose/draw deltas of `submitRoundAdmin`. */
module RoundEntry {
  import opened Wrappers
  import opened Ledger

  /** Why the page refuses to send a round. */
  datatype EntryError =
    | NoAdminChosen             // no admin for this round
    | NotInteger(name: string)  // this player's field does not parse as an integer
    | NegativeAmount(name: string)
    | NonZeroTotal(total: int)  // the deltas do not add up to 0

  // ------------------------------------------------------- rounds without admin

  /** One `.score-input` field: the player in its `data-player` attribute and
      its value as `parseInt` reads it (`None` for `NaN`). */
  datatype ScoreInput = ScoreInput(name: string, value: Option<int>)

  predicate Skipped(input: ScoreInput, skip: Option<string>) {
    skip.Some? && input.name == skip.value
  }

  predicate AllParsed(inputs: seq<ScoreInput>, skip: Option<string>) {
    forall k | 0 <= k < |inputs| :: Skipped(inputs[k], skip) || inputs[k].value.Some?
  }

  /** The player of the first field, not skipped, that does not parse. */
  function FirstUnparsed(inputs: seq<ScoreInput>, skip: Option<string>): (r: Option<string>)
    ensures r.None? <==> AllParsed(inputs, skip)
    ensures r.Some? ==> exists k | 0 <= k < |inputs| :: inputs[k].name == r.value
  {
    if inputs == [] then None
    else
      var init, last := inputs[..|inputs| - 1], inputs[|inputs| - 1];
      var r := FirstUnparsed(init, skip);
      if r.Some? then
        assert forall k | 0 <= k < |init| :: init[k] == inputs[k];
        r
      else if !Skipped(last, skip) && last.value.None? then Some(last.name)
      else
        assert forall k | 0 <= k < |init| :: init[k] == inputs[k];
        None
  }

  /** Once a prefix has a field that does not parse, so has the whole list,
      and it is the same field. */
  lemma {:induction false} FirstUnparsedPrefix(inputs: seq<ScoreInput>, skip: Option<string>, i: nat)
    requires i <= |inputs| && FirstUnparsed(inputs[..i], skip).Some?
    ensures FirstUnparsed(inputs, skip) == FirstUnparsed(inputs[..i], skip)
    decreases |inputs| - i
  {
    if i < |inputs| {
      assert inputs[..i + 1][..i] == inputs[..i];
      FirstUnparsedPrefix(inputs, skip, i + 1);
    } else {
      assert inputs[..i] == inputs;
    }
  }

  /** The score object the loop builds: every field not skipped, assigned in
      order (a repeated player keeps the last value). */
  function Collected(inputs: seq<ScoreInput>, skip: Option<string>): Scores
    requires AllParsed(inputs, skip)
  {
    if inputs == [] then []
    else
      var init, last := inputs[..|inputs| - 1], inputs[|inputs| - 1];
      assert forall k | 0 <= k < |init| :: init[k] == inputs[k];
      var t := Collected(init, skip);
      if Skipped(last, skip) then t else Put(t, last.name, last.value.value)
  }

  /** The field reported is the first one, not skipped, that does not parse. */
  lemma FirstUnparsedAt(inputs: seq<ScoreInput>, skip: Option<string>, k: nat)
    requires k < |inputs| && !Skipped(inputs[k], skip) && inputs[k].value.None?
    requires forall i | 0 <= i < k :: Skipped(inputs[i], skip) || inputs[i].value.Some?
    ensures FirstUnparsed(inputs, skip) == Some(inputs[k].name)
  {
    var p := inputs[..k + 1];
    assert p[..k] == inputs[..k];
    assert AllParsed(inputs[..k], skip);
    FirstUnparsedPrefix(inputs, skip, k + 1);
  }

  /** The collected object is a dictionary: no player appears twice. */
  lemma {:induction false} CollectedUnique(inputs: seq<ScoreInput>, skip: Option<string>)
    requires AllParsed(inputs, skip)
    ensures UniqueNames(Collected(inputs, skip))
    decreases |inputs|
  {
    if inputs != [] {
      var j := |inputs| - 1;
      var init, last := inputs[..j], inputs[j];
      assert forall m | 0 <= m < j :: init[m] == inputs[m];
      CollectedUnique(init, skip);
      if !Skipped(last, skip) {
        PutKeepsUnique(Collected(init, skip), last.name, last.value.value);
      }
    }
  }

  /** Distinct players stay distinct when the last field is dropped. */
  lemma DistinctInit(inputs: seq<ScoreInput>)
    requires inputs != [] && Distinct(InputNames(inputs))
    ensures Distinct(InputNames(inputs[..|inputs| - 1]))
  {
    var init := inputs[..|inputs| - 1];
    assert forall a | 0 <= a < |init| :: InputNames(init)[a] == InputNames(inputs)[a];
  }

  /** The collected object is a dictionary holding every field that is not
      skipped, and with distinct players each holds its own field's value. */
  lemma {:induction false} CollectedContents(inputs: seq<ScoreInput>, skip: Option<string>, k: nat)
    requires AllParsed(inputs, skip) && k < |inputs|
    ensures UniqueNames(Collected(inputs, skip))
    ensures Skipped(inputs[k], skip) ==> Get(Collected(inputs, skip), inputs[k].name) == None
    ensures !Skipped(inputs[k], skip) && Distinct(InputNames(inputs)) ==>
      Get(Collected(inputs, skip), inputs[k].name) == inputs[k].value
    decreases |inputs|
  {
    CollectedUnique(inputs, skip);
    var j := |inputs| - 1;
    var init, last := inputs[..j], inputs[j];
    assert forall m | 0 <= m < j :: init[m] == inputs[m];
    var t := Collected(init, skip);
    if k == j {
      if Skipped(last, skip) && j > 0 {
        CollectedUnnamed(init, skip);
      }
    } else {
      CollectedContents(init, skip, k);
      if Distinct(InputNames(inputs)) {
        DistinctInit(inputs);
      }
      if !Skipped(last, skip) && last.name != inputs[k].name {
        PutLeavesOthers(t, last.name, last.value.value, inputs[k].name);
      }
    }
  }

  /** The players of the fields that are not skipped. */
  function Unskipped(inputs: seq<ScoreInput>, skip: Option<string>): set<string> {
    set k | 0 <= k < |inputs| && !Skipped(inputs[k], skip) :: inputs[k].name
  }

  /** The keys of the collected object are exactly the players of the
      fields that are not skipped. */
  lemma {:induction false} CollectedKeys(inputs: seq<ScoreInput>, skip: Option<string>)
    requires AllParsed(inputs, skip)
    ensures KeySet(Collected(inputs, skip)) == Unskipped(inputs, skip)
    decreases |inputs|
  {
    if inputs != [] {
      var j := |inputs| - 1;
      var init, last := inputs[..j], inputs[j];
      assert forall k | 0 <= k < j :: init[k] == inputs[k];
      CollectedKeys(init, skip);
      UnskippedSnoc(inputs, skip);
      if !Skipped(last, skip) {
        PutKeySet(Collected(init, skip), last.name, last.value.value);
      }
    }
  }

  /** One more field adds its player unless it is skipped. */
  lemma UnskippedSnoc(inputs: seq<ScoreInput>, skip: Option<string>)
    requires inputs != []
    ensures var j := |inputs| - 1;
      Unskipped(inputs, skip)
      == Unskipped(inputs[..j], skip) + (if Skipped(inputs[j], skip) then {} else {inputs[j].name})
  {
    var j := |inputs| - 1;
    assert forall k | 0 <= k < j :: inputs[..j][k] == inputs[k];
  }

  /** The skipped player never appears in the collected object. */
  lemma {:induction false} CollectedUnnamed(inputs: seq<ScoreInput>, skip: Option<string>)
    requires AllParsed(inputs, skip) && skip.Some?
    ensures Get(Collected(inputs, skip), skip.value) == None
    decreases |inputs|
  {
    if inputs != [] {
      var init, last := inputs[..|inputs| - 1], inputs[|inputs| - 1];
      assert forall k | 0 <= k < |init| :: init[k] == inputs[k];
      CollectedUnnamed(init, skip);
      if !Skipped(last, skip) {
        PutLeavesOthers(Collected(init, skip), last.name, last.value.value, skip.value);
      }
    }
  }

  function InputNames(inputs: seq<ScoreInput>): (names: seq<string>)
    ensures |names| == |inputs| && forall k | 0 <= k < |inputs| :: names[k] == inputs[k].name
  {
    seq(|inputs|, k requires 0 <= k < |inputs| => inputs[k].name)
  }

  /** One more field read by the loop of `collectScores`. */
  lemma CollectStep(inputs: seq<ScoreInput>, skip: Option<string>, i: nat)
    requires i < |inputs| && AllParsed(inputs[..i], skip)
    requires Skipped(inputs[i], skip) || inputs[i].value.Some?
    ensures AllParsed(inputs[..i + 1], skip)
    ensures Collected(inputs[..i + 1], skip)
         == if Skipped(inputs[i], skip) then Collected(inputs[..i], skip)
            else Put(Collected(inputs[..i], skip), inputs[i].name, inputs[i].value.value)
  {
    assert inputs[..i + 1][..i] == inputs[..i];
  }

  /** `collectScores(skipPlayer)`: read the fields in page order, skipping
      the given player; stop at the first field that is not an integer. */
  method CollectScores(inputs: seq<ScoreInput>, skip: Option<string>) returns (r: Result<Scores, EntryError>)
    ensures r.Failure? <==> !AllParsed(inputs, skip)
    ensures r.Failure? ==> r.error == NotInteger(FirstUnparsed(inputs, skip).value)
    ensures r.Success? ==> AllParsed(inputs, skip) && r.value == Collected(inputs, skip)
  {
    var scores: Scores := [];
    var i := 0;
    while i < |inputs|
      invariant 0 <= i <= |inputs|
      invariant AllParsed(inputs[..i], skip)
      invariant scores == Collected(inputs[..i], skip)
    {
      var input := inputs[i];
      if !Skipped(input, skip) && input.value.None? {
        assert inputs[..i + 1][..i] == inputs[..i];
        FirstUnparsedPrefix(inputs, skip, i + 1);
        return Failure(NotInteger(input.name));
      }
      CollectStep(inputs, skip, i);
      if !Skipped(input, skip) {
        scores := Put(scores, input.name, input.value.value);
      }
      i := i + 1;
    }
    assert inputs[..i] == inputs;
    return Success(scores);
  }

  /** `submitRoundNoAdmin` up to the request: the collected deltas are sent
      only when they add up to exactly 0; otherwise the total is reported. */
  method NoAdminRound(inputs: seq<ScoreInput>) returns (r: Result<Scores, EntryError>)
    ensures !AllParsed(inputs, None) ==> r == Failure(NotInteger(FirstUnparsed(inputs, None).value))
    ensures AllParsed(inputs, None) && Sum(Collected(inputs, None)) != 0 ==>
      r == Failure(NonZeroTotal(Sum(Collected(inputs, None))))
    ensures r.Success? <==> AllParsed(inputs, None) && Sum(Collected(inputs, None)) == 0
    ensures r.Success? ==> r.value == Collected(inputs, None) && Sum(r.value) == 0
  {
    var collected := CollectScores(inputs, None);
    if collected.Failure? {
      return collected;
    }
    var total := Sum(collected.value);
    if total != 0 {
      return Failure(NonZeroTotal(total));
    }
    return collected;
  }

  // ---------------------------------------------------------- rounds with admin

  /** The outcome select of one opponent row, named from the admin's side:
      `"win"` (the admin wins), `"draw"`, `"lose"` (the admin loses). */
  datatype Outcome = AdminWins | Draw | AdminLoses

  /** An opponent's outcome and amount field (`None` when it is `NaN`). */
  datatype Wager = Wager(outcome: Outcome, amount: Option<int>)

  /** One `.score-row`: its player and, for an opponent row, its controls;
      the admin's row has none. */
  datatype ScoreRow = ScoreRow(name: string, wager: Option<Wager>)

  /** A row the loop reads: it names a player other than the admin and has
      an outcome select and an amount field. */
  predicate Counted(row: ScoreRow, admin: string) {
    row.name != "" && row.name != admin && row.wager.Some?
  }

  /** What is wrong with a counted row, if anything: a draw ignores its
      amount; otherwise the amount must be an integer and not negative. */
  function RowError(row: ScoreRow, admin: string): (e: Option<EntryError>)
    ensures e.Some? ==> Counted(row, admin) && !row.wager.value.outcome.Draw?
    ensures e == Some(NotInteger(row.name)) <==>
      Counted(row, admin) && !row.wager.value.outcome.Draw? && row.wager.value.amount.None?
    ensures e == Some(NegativeAmount(row.name)) <==>
      Counted(row, admin) && !row.wager.value.outcome.Draw? && row.wager.value.amount.Some? && row.wager.value.amount.value < 0
    ensures e.None? && Counted(row, admin) ==>
      row.wager.value.outcome.Draw? || (row.wager.value.amount.Some? && row.wager.value.amount.value >= 0)
  {
    if !Counted(row, admin) || row.wager.value.outcome.Draw? then None
    else if row.wager.value.amount.None? then Some(NotInteger(row.name))
    else if row.wager.value.amount.value < 0 then Some(NegativeAmount(row.name))
    else None
  }

  /** The opponent's delta: minus the amount when the admin wins, the amount
      when the admin loses, 0 for a draw. */
  function WagerDelta(w: Wager): (d: int)
    requires w.outcome.Draw? || (w.amount.Some? && w.amount.value >= 0)
    ensures w.outcome.Draw? ==> d == 0
    ensures w.outcome.AdminWins? ==> d <= 0 && d == -w.amount.value
    ensures w.outcome.AdminLoses? ==> d >= 0 && d == w.amount.value
  {
    match w.outcome
    case Draw => 0
    case AdminWins => -w.amount.value
    case AdminLoses => w.amount.value
  }

  /** The first error among the rows, in page order. */
  function FirstRowError(rows: seq<ScoreRow>, admin: string): (r: Option<EntryError>)
    ensures r.None? <==> forall k | 0 <= k < |rows| :: RowError(rows[k], admin).None?
  {
    if rows == [] then None
    else
      var init := rows[..|rows| - 1];
      assert forall k | 0 <= k < |init| :: init[k] == rows[k];
      var r := FirstRowError(init, admin);
      if r.Some? then r else RowError(rows[|rows| - 1], admin)
  }

  lemma {:induction false} FirstRowErrorPrefix(rows: seq<ScoreRow>, admin: string, i: nat)
    requires i <= |rows| && FirstRowError(rows[..i], admin).Some?
    ensures FirstRowError(rows, admin) == FirstRowError(rows[..i], admin)
    decreases |rows| - i
  {
    if i < |rows| {
      assert rows[..i + 1][..i] == rows[..i];
      FirstRowErrorPrefix(rows, admin, i + 1);
    } else {
      assert rows[..i] == rows;
    }
  }

  /** The error reported is the one of the first row that has one. */
  lemma FirstRowErrorAt(rows: seq<ScoreRow>, admin: string, k: nat)
    requires k < |rows| && RowError(rows[k], admin).Some?
    requires forall i | 0 <= i < k :: RowError(rows[i], admin).None?
    ensures FirstRowError(rows, admin) == RowError(rows[k], admin)
  {
    var p := rows[..k + 1];
    assert p[..k] == rows[..k];
    assert FirstRowError(rows[..k], admin).None?;
    FirstRowErrorPrefix(rows, admin, k + 1);
  }

  /** The opponents' deltas as the loop assigns them into `scores`. */
  function Deals(rows: seq<ScoreRow>, admin: string): Scores
    requires FirstRowError(rows, admin).None?
  {
    if rows == [] then []
    else
      var init, last := rows[..|rows| - 1], rows[|rows| - 1];
      assert forall k | 0 <= k < |init| :: init[k] == rows[k];
      var t := Deals(init, admin);
      if Counted(last, admin) then Put(t, last.name, WagerDelta(last.wager.value)) else t
  }

  /** `adminDelta`: what the admin gains from every counted row, added up. */
  function AdminGain(rows: seq<ScoreRow>, admin: string): int
    requires FirstRowError(rows, admin).None?
  {
    if rows == [] then 0
    else
      var init, last := rows[..|rows| - 1], rows[|rows| - 1];
      assert forall k | 0 <= k < |init| :: init[k] == rows[k];
      AdminGain(init, admin) - (if Counted(last, admin) then WagerDelta(last.wager.value) else 0)
  }

  /** One more row read by the loop of `submitRoundAdmin`, when it has no
      error: a counted row adds its delta to the deals and its opposite to
      the admin's gain. */
  lemma AdminStep(rows: seq<ScoreRow>, admin: string, i: nat)
    requires i < |rows| && FirstRowError(rows[..i], admin).None? && RowError(rows[i], admin).None?
    ensures FirstRowError(rows[..i + 1], admin).None?
    ensures Deals(rows[..i + 1], admin)
         == if Counted(rows[i], admin) then Put(Deals(rows[..i], admin), rows[i].name, WagerDelta(rows[i].wager.value))
            else Deals(rows[..i], admin)
    ensures AdminGain(rows[..i + 1], admin)
         == AdminGain(rows[..i], admin) - (if Counted(rows[i], admin) then WagerDelta(rows[i].wager.value) else 0)
  {
    assert rows[..i + 1][..i] == rows[..i];
  }

  /** `submitRoundAdmin` up to the request: without an admin nothing is sent;
      otherwise each counted row gets its delta, the admin the opposite of
      their sum, and the first bad amount aborts the round. */
  method AdminRound(admin: Option<string>, rows: seq<ScoreRow>) returns (r: Result<Scores, EntryError>)
    ensures admin.None? || admin.value == "" ==> r == Failure(NoAdminChosen)
    ensures admin.Some? && admin.value != "" ==>
      && (r.Failure? <==> FirstRowError(rows, admin.value).Some?)
      && (r.Failure? ==> r.error == FirstRowError(rows, admin.value).value)
      && (r.Success? ==> r.value == Put(Deals(rows, admin.value), admin.value, AdminGain(rows, admin.value)))
  {
    if admin.None? || admin.value == "" {
      return Failure(NoAdminChosen);
    }
    var a := admin.value;
    var scores: Scores := [];
    var adminDelta := 0;
    var i := 0;
    while i < |rows|
      invariant 0 <= i <= |rows|
      invariant FirstRowError(rows[..i], a).None?
      invariant scores == Deals(rows[..i], a) && adminDelta == AdminGain(rows[..i], a)
    {
      var row := rows[i];
      if Counted(row, a) {
        var w := row.wager.value;
        var amount := 0;
        if !w.outcome.Draw? {
          if w.amount.None? {
            FirstRowErrorAt(rows, a, i);
            return Failure(NotInteger(row.name));
          }
          if w.amount.value < 0 {
            FirstRowErrorAt(rows, a, i);
            return Failure(NegativeAmount(row.name));
          }
          amount := w.amount.value;
        }
        var delta := 0;
        match w.outcome {
          case AdminWins =>
            delta := -amount;
            adminDelta := adminDelta + amount;
          case AdminLoses =>
            delta := amount;
            adminDelta := adminDelta - amount;
          case Draw =>
        }
        assert delta == WagerDelta(w);
        scores := Put(scores, row.name, delta);
      }
      assert RowError(row, a).None?;
      AdminStep(rows, a, i);
      i := i + 1;
    }
    assert rows[..i] == rows;
    scores := Put(scores, a, adminDelta);
    return Success(scores);
  }

  function RowNames(rows: seq<ScoreRow>): (names: seq<string>)
    ensures |names| == |rows| && forall k | 0 <= k < |rows| :: names[k] == rows[k].name
  {
    seq(|rows|, k requires 0 <= k < |rows| => rows[k].name)
  }

  /** Only counted rows' players are keys of the deals, and the deals form a
      dictionary; with distinct players the deals add up to minus the
      admin's gain. */
  lemma {:induction false} DealsBalance(rows: seq<ScoreRow>, admin: string)
    requires FirstRowError(rows, admin).None?
    ensures UniqueNames(Deals(rows, admin))
    ensures admin !in Keys(Deals(rows, admin))
    ensures forall n | n in Keys(Deals(rows, admin)) :: n in RowNames(rows)
    ensures Distinct(RowNames(rows)) ==> Sum(Deals(rows, admin)) == -AdminGain(rows, admin)
    decreases |rows|
  {
    if rows != [] {
      var init, last := rows[..|rows| - 1], rows[|rows| - 1];
      assert forall k | 0 <= k < |init| :: init[k] == rows[k];
      assert FirstRowError(init, admin).None?;
      DealsBalance(init, admin);
      var t := Deals(init, admin);
      assert forall n | n in RowNames(init) :: n in RowNames(rows);
      assert Distinct(RowNames(rows)) ==> Distinct(RowNames(init)) && last.name !in RowNames(init) by {
        assert forall k | 0 <= k < |init| :: RowNames(init)[k] == RowNames(rows)[k];
      }
      if Counted(last, admin) {
        var d := WagerDelta(last.wager.value);
        PutKeys(t, last.name, d);
        PutKeepsUnique(t, last.name, d);
        PutSum(t, last.name, d);
      }
    }
  }

  /** A round with an admin is zero-sum by construction: with distinct
      players, the deltas add up to 0, the admin's delta is minus the sum of
      the others', and each counted row carries its own delta. */
  lemma AdminRoundZeroSum(rows: seq<ScoreRow>, admin: string, k: nat)
    requires admin != "" && FirstRowError(rows, admin).None? && Distinct(RowNames(rows))
    requires k < |rows| && Counted(rows[k], admin)
    ensures var scores := Put(Deals(rows, admin), admin, AdminGain(rows, admin));
      && UniqueNames(scores)
      && Sum(scores) == 0
      && Get(scores, admin) == Some(-Sum(Deals(rows, admin)))
      && Get(scores, rows[k].name) == Some(WagerDelta(rows[k].wager.value))
  {
    var deals := Deals(rows, admin);
    DealsBalance(rows, admin);
    assert ValueOr0(deals, admin) == 0 by {
      assert Get(deals, admin).None?;
    }
    PutKeepsUnique(deals, admin, AdminGain(rows, admin));
    PutSum(deals, admin, AdminGain(rows, admin));
    PutLeavesOthers(deals, admin, AdminGain(rows, admin), rows[k].name);
    DealOf(rows, admin, k);
  }

  /** With distinct players, each counted row's delta is the one stored. */
  lemma {:induction false} DealOf(rows: seq<ScoreRow>, admin: string, k: nat)
    requires FirstRowError(rows, admin).None? && Distinct(RowNames(rows))
    requires k < |rows| && Counted(rows[k], admin)
    ensures Get(Deals(rows, admin), rows[k].name) == Some(WagerDelta(rows[k].wager.value))
    decreases |rows|
  {
    var j := |rows| - 1;
    var init, last := rows[..j], rows[j];
    assert forall m | 0 <= m < j :: init[m] == rows[m];
    assert FirstRowError(init, admin).None?;
    if k < j {
      assert Distinct(RowNames(init)) by {
        assert forall m | 0 <= m < j :: RowNames(init)[m] == RowNames(rows)[m];
      }
      DealOf(init, admin, k);
      if Counted(last, admin) {
        assert RowNames(rows)[k] != RowNames(rows)[j];
        PutLeavesOthers(Deals(init, admin), last.name, WagerDelta(last.wager.value), rows[k].name);
      }
    }
  }

  /** The rows with the amount of draw `k` replaced. */
  function Redrawn(rows: seq<ScoreRow>, k: nat, amount: Option<int>): (r: seq<ScoreRow>)
    requires k < |rows|
    ensures |r| == |rows| && r[k].name == rows[k].name
  {
    rows[k := ScoreRow(rows[k].name, Some(Wager(Draw, amount)))]
  }

  /** Replacing a draw's amount leaves the round's first error alone. */
  lemma {:induction false} DrawKeepsError(rows: seq<ScoreRow>, admin: string, k: nat, amount: Option<int>)
    requires k < |rows| && rows[k].wager.Some? && rows[k].wager.value.outcome.Draw?
    ensures FirstRowError(Redrawn(rows, k, amount), admin) == FirstRowError(rows, admin)
    decreases |rows|
  {
    var rows' := Redrawn(rows, k, amount);
    var j := |rows| - 1;
    if k < j {
      DrawKeepsError(rows[..j], admin, k, amount);
      assert rows'[..j] == Redrawn(rows[..j], k, amount);
    } else {
      assert rows'[..j] == rows[..j];
    }
  }

  /** Replacing a draw's amount leaves the deals alone. */
  lemma {:induction false} DrawKeepsDeals(rows: seq<ScoreRow>, admin: string, k: nat, amount: Option<int>)
    requires k < |rows| && rows[k].wager.Some? && rows[k].wager.value.outcome.Draw?
    requires FirstRowError(rows, admin).None? && FirstRowError(Redrawn(rows, k, amount), admin).None?
    ensures Deals(Redrawn(rows, k, amount), admin) == Deals(rows, admin)
    decreases |rows|
  {
    var rows' := Redrawn(rows, k, amount);
    var j := |rows| - 1;
    if k < j {
      assert rows'[..j] == Redrawn(rows[..j], k, amount);
      DrawKeepsDeals(rows[..j], admin, k, amount);
    } else {
      assert rows'[..j] == rows[..j];
    }
  }

  /** Replacing a draw's amount leaves the admin's gain alone. */
  lemma {:induction false} DrawKeepsGain(rows: seq<ScoreRow>, admin: string, k: nat, amount: Option<int>)
    requires k < |rows| && rows[k].wager.Some? && rows[k].wager.value.outcome.Draw?
    requires FirstRowError(rows, admin).None? && FirstRowError(Redrawn(rows, k, amount), admin).None?
    ensures AdminGain(Redrawn(rows, k, amount), admin) == AdminGain(rows, admin)
    decreases |rows|
  {
    var rows' := Redrawn(rows, k, amount);
    var j := |rows| - 1;
    if k < j {
      assert rows'[..j] == Redrawn(rows[..j], k, amount);
      DrawKeepsGain(rows[..j], admin, k, amount);
    } else {
      assert rows'[..j] == rows[..j];
    }
  }

  /** A draw's amount field plays no part: whatever it holds, the round has
      the same errors, deals and admin gain. */
  lemma DrawIgnoresAmount(rows: seq<ScoreRow>, admin: string, k: nat, amount: Option<int>)
    requires k < |rows| && rows[k].wager.Some? && rows[k].wager.value.outcome.Draw?
    ensures var rows' := rows[k := ScoreRow(rows[k].name, Some(Wager(Draw, amount)))];
      && FirstRowError(rows', admin) == FirstRowError(rows, admin)
      && (FirstRowError(rows, admin).None? ==>
            Deals(rows', admin) == Deals(rows, admin) && AdminGain(rows', admin) == AdminGain(rows, admin))
  {
    DrawKeepsError(rows, admin, k, amount);
    if FirstRowError(rows, admin).None? {
      DrawKeepsDeals(rows, admin, k, amount);
      DrawKeepsGain(rows, admin, k, amount);
    }
  }
}
