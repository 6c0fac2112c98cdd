/** The leaderboard of the game page (static/main.js, `renderSummaryTable`):
    the players ordered by total, highest first, each with a place, a rank
    tier, a colour and the sign of the total. */
module Leaderboard {
  import opened Ledger

  /** A player's total as the comparator reads it, 0 when the name has none. */
  function Score(totals: map<string, int>, n: string): int {
    MapOr0(totals, n)
  }

  /** Highest key first: every element's key is at least the next one's. */
  predicate Descending<T>(key: T -> int, s: seq<T>)
    decreases |s|
  {
    |s| <= 1 || (key(s[0]) >= key(s[1]) && Descending(key, s[1..]))
  }

  /** `[x]` when the key of `x` is `t`, otherwise nothing. */
  function Selected<T>(key: T -> int, x: T, t: int): seq<T> {
    if key(x) == t then [x] else []
  }

  /** The elements of `s` whose key is `t`, in the order of `s`. */
  function WithKey<T>(key: T -> int, s: seq<T>, t: int): seq<T> {
    if s == [] then [] else Selected(key, s[0], t) + WithKey(key, s[1..], t)
  }

  /** Places `x` after every element whose key is at least its own, so that
      among equal keys the earlier element stays in front. */
  function Insert<T>(key: T -> int, x: T, s: seq<T>): (r: seq<T>)
    ensures |r| == |s| + 1
    ensures multiset(r) == multiset(s) + multiset{x}
  {
    if s == [] then [x]
    else if key(s[0]) >= key(x) then
      assert s == [s[0]] + s[1..];
      [s[0]] + Insert(key, x, s[1..])
    else [x] + s
  }

  /** A stable sort by descending key, written as insertion of each element
      in turn into the sorted elements before it. */
  function SortDescending<T>(key: T -> int, s: seq<T>): (r: seq<T>)
    ensures |r| == |s|
    decreases |s|
  {
    if s == [] then []
    else Insert(key, s[|s| - 1], SortDescending(key, s[..|s| - 1]))
  }

  /** The summary's ordering of a copy of the players: the engine's stable
      sort, with a comparator that puts the higher total first. */
  function Ranked(totals: map<string, int>, players: seq<string>): seq<string> {
    SortDescending(n => Score(totals, n), players)
  }

  // --------------------------------------------------------------- lemmas

  /** In a descending list any element's key is at least any later one's. */
  lemma {:induction false} DescendingPairs<T>(key: T -> int, s: seq<T>, i: nat, j: nat)
    requires Descending(key, s) && i <= j < |s|
    ensures key(s[i]) >= key(s[j])
    decreases j
  {
    if i < j {
      DescendingPairs(key, s[1..], if i == 0 then 0 else i - 1, j - 1);
      if i == 0 {
        assert key(s[0]) >= key(s[1]);
      }
    }
  }

  /** Selecting by key distributes over concatenation. */
  lemma {:induction false} WithKeyAppend<T>(key: T -> int, a: seq<T>, b: seq<T>, t: int)
    ensures WithKey(key, a + b, t) == WithKey(key, a, t) + WithKey(key, b, t)
    decreases |a|
  {
    if a == [] {
      assert a + b == b;
    } else {
      assert (a + b)[0] == a[0];
      assert (a + b)[1..] == a[1..] + b;
      WithKeyAppend(key, a[1..], b, t);
    }
  }

  /** Selecting from a list with one more element in front. */
  lemma WithKeyCons<T>(key: T -> int, x: T, s: seq<T>, t: int)
    ensures WithKey(key, [x] + s, t) == Selected(key, x, t) + WithKey(key, s, t)
  {
    assert ([x] + s)[0] == x;
    assert ([x] + s)[1..] == s;
  }

  /** A descending list whose head is below `t` has no element with key `t`. */
  lemma {:induction false} WithKeyBelow<T>(key: T -> int, s: seq<T>, t: int)
    requires Descending(key, s) && (s != [] ==> key(s[0]) < t)
    ensures WithKey(key, s, t) == []
    decreases |s|
  {
    if s != [] {
      WithKeyBelow(key, s[1..], t);
    }
  }

  /** Inserting into a descending list keeps it descending; the new head is
      the old head or the new element. */
  lemma {:induction false} InsertDescending<T>(key: T -> int, x: T, s: seq<T>)
    requires Descending(key, s)
    ensures Descending(key, Insert(key, x, s))
    ensures Insert(key, x, s)[0] == (if s != [] && key(s[0]) >= key(x) then s[0] else x)
    decreases |s|
  {
    if s == [] {
    } else if key(s[0]) >= key(x) {
      var rest := Insert(key, x, s[1..]);
      InsertDescending(key, x, s[1..]);
      var r := [s[0]] + rest;
      assert r[1..] == rest;
      assert r[1] == rest[0];
    } else {
      assert ([x] + s)[1..] == s;
    }
  }

  /** The step of `InsertStable` where the new element goes past the head. */
  lemma InsertFrontStable<T>(key: T -> int, x: T, s: seq<T>, t: int)
    requires s != [] && key(s[0]) >= key(x)
    requires WithKey(key, Insert(key, x, s[1..]), t) == WithKey(key, s[1..], t) + Selected(key, x, t)
    ensures WithKey(key, Insert(key, x, s), t) == WithKey(key, s, t) + Selected(key, x, t)
  {
    var h, e := Selected(key, s[0], t), Selected(key, x, t);
    var rest := Insert(key, x, s[1..]);
    var w := WithKey(key, s[1..], t);
    WithKeyCons(key, s[0], rest, t);
    Assoc(h, w, e);
  }

  /** Concatenation is associative. */
  lemma Assoc<T>(a: seq<T>, b: seq<T>, c: seq<T>)
    ensures a + (b + c) == (a + b) + c
  {
  }

  /** Inserting into a descending list puts the new element after every
      element with the same key. */
  lemma {:induction false} InsertStable<T>(key: T -> int, x: T, s: seq<T>, t: int)
    requires Descending(key, s)
    ensures WithKey(key, Insert(key, x, s), t) == WithKey(key, s, t) + Selected(key, x, t)
    decreases |s|
  {
    var e := Selected(key, x, t);
    if s == [] {
      WithKeyCons(key, x, [], t);
      assert [x] + [] == [x];
      assert WithKey(key, [], t) == [];
      assert e + [] == [] + e;
    } else if key(s[0]) >= key(x) {
      InsertStable(key, x, s[1..], t);
      InsertFrontStable(key, x, s, t);
    } else {
      WithKeyCons(key, x, s, t);
      var w := WithKey(key, s, t);
      if key(x) == t {
        WithKeyBelow(key, s, t);
        assert e + w == w + e by { assert w == []; }
      } else {
        assert e == [];
        assert e + w == w + e;
      }
    }
  }

  /** Selecting from a list with one more element at the back. */
  lemma WithKeySnoc<T>(key: T -> int, s: seq<T>, t: int)
    requires s != []
    ensures WithKey(key, s, t) == WithKey(key, s[..|s| - 1], t) + Selected(key, s[|s| - 1], t)
  {
    var init, x := s[..|s| - 1], s[|s| - 1];
    assert s == init + [x];
    WithKeyAppend(key, init, [x], t);
    WithKeyCons(key, x, [], t);
    assert [x] + [] == [x];
  }

  /** The sort's result is a rearrangement of its input. */
  lemma {:induction false} SortPermutes<T>(key: T -> int, s: seq<T>)
    ensures multiset(SortDescending(key, s)) == multiset(s)
    decreases |s|
  {
    if s != [] {
      SortPermutes(key, s[..|s| - 1]);
      assert s == s[..|s| - 1] + [s[|s| - 1]];
    }
  }

  /** The sort's result is highest key first. */
  lemma {:induction false} SortIsDescending<T>(key: T -> int, s: seq<T>)
    ensures Descending(key, SortDescending(key, s))
    decreases |s|
  {
    if s != [] {
      SortIsDescending(key, s[..|s| - 1]);
      InsertDescending(key, s[|s| - 1], SortDescending(key, s[..|s| - 1]));
    }
  }

  /** The sort keeps the input's order among equal keys. */
  lemma {:induction false} SortIsStable<T>(key: T -> int, s: seq<T>, t: int)
    ensures WithKey(key, SortDescending(key, s), t) == WithKey(key, s, t)
    decreases |s|
  {
    if s != [] {
      var init := s[..|s| - 1];
      SortIsStable(key, init, t);
      SortIsDescending(key, init);
      InsertStable(key, s[|s| - 1], SortDescending(key, init), t);
      WithKeySnoc(key, s, t);
    }
  }

  /** The head of the sort's result has the highest key of any element. */
  lemma SortLeader<T>(key: T -> int, s: seq<T>, x: T)
    requires x in s
    ensures key(SortDescending(key, s)[0]) >= key(x)
  {
    var r := SortDescending(key, s);
    SortPermutes(key, s);
    SortIsDescending(key, s);
    assert x in multiset(r);
    var k :| 0 <= k < |r| && r[k] == x;
    DescendingPairs(key, r, 0, k);
  }

  /** The leaderboard's order: a rearrangement of the players, highest total
      first, and players with equal totals in the order they joined. */
  lemma RankedOrder(totals: map<string, int>, players: seq<string>, t: int)
    ensures multiset(Ranked(totals, players)) == multiset(players)
    ensures Descending(n => Score(totals, n), Ranked(totals, players))
    ensures var key := n => Score(totals, n);
      WithKey(key, Ranked(totals, players), t) == WithKey(key, players, t)
  {
    SortPermutes(n => Score(totals, n), players);
    SortIsDescending(n => Score(totals, n), players);
    SortIsStable(n => Score(totals, n), players, t);
  }

  // ----------------------------------------------------------- the rows

  /** `rankClass`: the first three places have their own badge. */
  datatype Tier = First | Second | Third | Other

  function TierOf(rank: nat): (t: Tier)
    ensures t == First <==> rank == 0
    ensures t == Second <==> rank == 1
    ensures t == Third <==> rank == 2
    ensures t == Other <==> rank >= 3
  {
    if rank == 0 then First else if rank == 1 then Second else if rank == 2 then Third else Other
  }

  /** `cls`: the colour class of a total. */
  datatype Sign = Positive | Negative | Zero

  function SignOf(t: int): (s: Sign)
    ensures s == Positive <==> t > 0
    ensures s == Negative <==> t < 0
  {
    if t > 0 then Positive else if t < 0 then Negative else Zero
  }

  /** `indexOf`: the first position of `n` among the players. */
  function IndexOf(players: seq<string>, n: string): (i: nat)
    requires n in players
    ensures i < |players| && players[i] == n
    ensures forall k | 0 <= k < i :: players[k] != n
  {
    if players[0] == n then 0 else 1 + IndexOf(players[1..], n)
  }

  /** One row of the summary table. Its avatar is drawn in the palette
      entry `PlayerColor(colourIndex)` with the text `Initials(name)`. */
  datatype SummaryRow = SummaryRow(place: nat, tier: Tier, name: string, colourIndex: nat,
                                   total: int, sign: Sign)

  /** The row for the name at `rank` in the ranking. */
  function RowAt(players: seq<string>, totals: map<string, int>, ranked: seq<string>, rank: nat): SummaryRow
    requires rank < |ranked| && ranked[rank] in players
  {
    var name := ranked[rank];
    var t := Score(totals, name);
    SummaryRow(rank + 1, TierOf(rank), name, IndexOf(players, name), t, SignOf(t))
  }

  /** `renderSummaryTable`: one row per player, in leaderboard order. */
  function Summary(players: seq<string>, totals: map<string, int>): (rows: seq<SummaryRow>)
    ensures |rows| == |players|
  {
    var ranked := Ranked(totals, players);
    RankedOrder(totals, players, 0);
    assert forall k | 0 <= k < |ranked| :: ranked[k] in multiset(players);
    seq(|ranked|, k requires 0 <= k < |ranked| => RowAt(players, totals, ranked, k))
  }

  /** Each row of the table: the name ranked at that place, the place
      counted from 1, the first three places with their own tier, the
      player's total and its sign, and the colour of the first position of
      that name among the players. */
  lemma SummaryRows(players: seq<string>, totals: map<string, int>, k: nat)
    requires k < |players|
    ensures var row := Summary(players, totals)[k];
      && row.name == Ranked(totals, players)[k]
      && row.place == k + 1
      && (row.tier == First <==> k == 0)
      && (row.tier == Second <==> k == 1)
      && (row.tier == Third <==> k == 2)
      && row.total == Score(totals, row.name)
      && (row.sign == Positive <==> row.total > 0)
      && (row.sign == Negative <==> row.total < 0)
      && row.colourIndex < |players| && players[row.colourIndex] == row.name
      && (forall j | 0 <= j < row.colourIndex :: players[j] != row.name)
  {
    var ranked := Ranked(totals, players);
    RankedOrder(totals, players, 0);
    assert ranked[k] in multiset(players);
  }

  /** Down the table the totals never increase. */
  lemma SummaryDescending(players: seq<string>, totals: map<string, int>, i: nat, j: nat)
    requires i <= j < |players|
    ensures Summary(players, totals)[i].total >= Summary(players, totals)[j].total
  {
    RankedOrder(totals, players, 0);
    DescendingPairs(n => Score(totals, n), Ranked(totals, players), i, j);
  }

  /** The first row holds the highest total of any player. */
  lemma SummaryLeader(players: seq<string>, totals: map<string, int>, n: string)
    requires n in players
    ensures Summary(players, totals)[0].total >= Score(totals, n)
  {
    SortLeader(n => Score(totals, n), players, n);
    SummaryRows(players, totals, 0);
  }
}
