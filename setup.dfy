/** The setup page (static/main.js): the player-count stepper and the
    players read back from the setup rows. */
module Setup {
  import opened Wrappers
  import opened Ledger
  import opened Display

  /** `changeCount`'s bounds on the number of setup rows. */
  const MinPlayers: int := 2
  const MaxPlayers: int := 10

  /** The count held between the two bounds. */
  function ClampCount(n: int): (r: int)
    ensures MinPlayers <= r <= MaxPlayers
    ensures MinPlayers <= n <= MaxPlayers ==> r == n
    ensures n < MinPlayers ==> r == MinPlayers
    ensures n > MaxPlayers ==> r == MaxPlayers
  {
    if n < MinPlayers then MinPlayers else if n > MaxPlayers then MaxPlayers else n
  }

  /** Clamping is idempotent, and it never moves a count away from the
      direction of the step. */
  lemma ClampStep(count: int, delta: int)
    requires MinPlayers <= count <= MaxPlayers
    ensures ClampCount(ClampCount(count + delta)) == ClampCount(count + delta)
    ensures delta >= 0 ==> count <= ClampCount(count + delta) <= count + delta
    ensures delta <= 0 ==> count + delta <= ClampCount(count + delta) <= count
  {
  }

  // ------------------------------------------------------- decimal numerals

  function DigitChar(d: nat): (c: char)
    requires d < 10
    ensures '0' <= c <= '9' && c as int - '0' as int == d
  {
    ('0' as int + d) as char
  }

  /** The decimal numeral of `n`, as a template literal writes it. */
  function NatToString(n: nat): (s: string)
    ensures s != [] && forall k | 0 <= k < |s| :: '0' <= s[k] <= '9'
    ensures s[0] == '0' ==> n == 0
  {
    if n < 10 then [DigitChar(n)] else NatToString(n / 10) + [DigitChar(n % 10)]
  }

  /** The value of a string of decimal digits. */
  function DigitsValue(s: string): nat
    requires forall k | 0 <= k < |s| :: '0' <= s[k] <= '9'
  {
    if s == [] then 0
    else DigitsValue(s[..|s| - 1]) * 10 + (s[|s| - 1] as int - '0' as int)
  }

  /** Reading the numeral back gives the number. */
  lemma {:induction false} NumeralRoundTrip(n: nat)
    ensures DigitsValue(NatToString(n)) == n
  {
    if n >= 10 {
      NumeralRoundTrip(n / 10);
      var s := NatToString(n);
      assert s[..|s| - 1] == NatToString(n / 10);
    }
  }

  /** The name a blank row gets: `P1`, `P2`, ... */
  function DefaultName(i: nat): string {
    "P" + NatToString(i + 1)
  }

  /** Different rows get different default names. */
  lemma DefaultNamesDiffer(i: nat, j: nat)
    requires i != j
    ensures DefaultName(i) != DefaultName(j)
  {
    var a, b := NatToString(i + 1), NatToString(j + 1);
    NumeralRoundTrip(i + 1);
    NumeralRoundTrip(j + 1);
    assert DefaultName(i)[1..] == a && DefaultName(j)[1..] == b;
    assert a != b;
  }

  // ------------------------------------------------------------ setup rows

  /** One setup row: the text of its name field and its score field as
      `parseInt` reads it (`None` for `NaN`). */
  datatype SetupRow = SetupRow(nameText: string, score: Option<int>)

  /** The player one row describes: the trimmed name, or `P<i+1>` when that
      is blank; the parsed score, or 0 when it is `NaN`. */
  function SetupPlayer(row: SetupRow, i: nat): Player {
    var t := Trim(row.nameText);
    Player(if t == [] then DefaultName(i) else t, row.score.GetOr(0))
  }

  /** `getSetupPlayers`: one player per row, in row order. */
  function SetupPlayers(rows: seq<SetupRow>): (players: seq<Player>)
    ensures |players| == |rows|
    ensures forall i | 0 <= i < |rows| :: players[i] == SetupPlayer(rows[i], i)
  {
    seq(|rows|, i requires 0 <= i < |rows| => SetupPlayer(rows[i], i))
  }

  /** Every name read from a setup row is non-empty and already trimmed; a
      blank row gets its default name, and a score that does not parse
      counts as 0. */
  lemma SetupDefaults(row: SetupRow, i: nat)
    ensures var p := SetupPlayer(row, i);
      && p.name != [] && Trim(p.name) == p.name
      && (Trim(row.nameText) == [] ==> p.name == DefaultName(i))
      && (Trim(row.nameText) != [] ==> p.name == Trim(row.nameText))
      && (row.score.None? ==> p.initial == 0)
      && (row.score.Some? ==> p.initial == row.score.value)
  {
    var t := Trim(row.nameText);
    if t == [] {
      DefaultNameUnspaced(i);
    } else {
      TrimIdempotent(row.nameText);
    }
  }

  /** A default name has no white space at either end. */
  lemma DefaultNameUnspaced(i: nat)
    ensures DefaultName(i) != [] && Trim(DefaultName(i)) == DefaultName(i)
  {
    var d, n := DefaultName(i), NatToString(i + 1);
    assert d[0] == 'P' && d[|d| - 1] == n[|n| - 1];
    TrimUnspaced(d);
  }
}
