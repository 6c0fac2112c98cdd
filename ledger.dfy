/** The score data the server stores and the browser receives: score
    dictionaries, rounds, players, admin settings and the state snapshot. */
module Ledger {
  import opened Wrappers

  /** One key/value pair of a score dictionary: a player's delta for a round. */
  datatype Entry = Entry(name: string, delta: int)

  /** A score dictionary `{name: delta}` (a Python dict or a JavaScript object),
      as its pairs in the order they were first assigned. A dictionary holds
      no order of its own worth relying on here: serialising may sort the
      keys, and a JavaScript object lists integer-like keys first. */
  type Scores = seq<Entry>

  /** The keys of a dictionary, in insertion order. */
  function Keys(s: Scores): (keys: seq<string>)
    ensures |keys| == |s|
    ensures forall i | 0 <= i < |s| :: keys[i] == s[i].name
  {
    if s == [] then [] else [s[0].name] + Keys(s[1..])
  }

  /** The keys of a dictionary, as a set. */
  function KeySet(s: Scores): set<string> {
    set k | k in Keys(s)
  }

  /** A dictionary never holds a key twice. */
  predicate UniqueNames(s: Scores) {
    Distinct(Keys(s))
  }

  /** Dictionary lookup: the value stored under `n`, if any. */
  function Get(s: Scores, n: string): (r: Option<int>)
    ensures r.Some? <==> n in Keys(s)
  {
    if s == [] then None
    else if s[0].name == n then Some(s[0].delta)
    else Get(s[1..], n)
  }

  /** A value found by lookup is the one stored with its key. */
  lemma {:induction false} GetFound(s: Scores, n: string)
    ensures Get(s, n).Some? ==> Entry(n, Get(s, n).value) in s
  {
    if s != [] && s[0].name != n {
      GetFound(s[1..], n);
    }
  }

  /** The value stored under `n`, or 0 when there is none. */
  function ValueOr0(s: Scores, n: string): int {
    Get(s, n).GetOr(0)
  }

  /** The values of a dictionary added up. */
  function Sum(s: Scores): int {
    if s == [] then 0 else s[0].delta + Sum(s[1..])
  }

  /** Key assignment: an existing key keeps its position and
      takes the new value, a new key is appended. */
  function Put(s: Scores, n: string, v: int): (r: Scores)
    ensures Get(r, n) == Some(v)
  {
    if s == [] then [Entry(n, v)]
    else if s[0].name == n then [Entry(n, v)] + s[1..]
    else
      var t := Put(s[1..], n, v);
      assert ([s[0]] + t)[1..] == t;
      [s[0]] + t
  }

  /** Assignment to an existing key keeps the keys and their order; a new
      key goes at the end. */
  lemma {:induction false} PutKeys(s: Scores, n: string, v: int)
    ensures n in Keys(s) ==> Keys(Put(s, n, v)) == Keys(s)
    ensures n !in Keys(s) ==> Keys(Put(s, n, v)) == Keys(s) + [n]
  {
    if s != [] {
      var r := Put(s, n, v);
      assert Keys(s) == [s[0].name] + Keys(s[1..]);
      if s[0].name == n {
        assert Keys(r) == [n] + Keys(s[1..]);
      } else {
        PutKeys(s[1..], n, v);
        assert r == [s[0]] + Put(s[1..], n, v);
        assert Keys(r) == [s[0].name] + Keys(Put(s[1..], n, v));
      }
    }
  }

  /** Assignment adds its key to the set of keys. */
  lemma PutKeySet(s: Scores, n: string, v: int)
    ensures KeySet(Put(s, n, v)) == KeySet(s) + {n}
  {
    PutKeys(s, n, v);
  }

  /** Assignment leaves every other key's value as it was. */
  lemma {:induction false} PutLeavesOthers(s: Scores, n: string, v: int, m: string)
    requires m != n
    ensures Get(Put(s, n, v), m) == Get(s, m)
  {
    if s != [] && s[0].name != n {
      PutLeavesOthers(s[1..], n, v, m);
      assert Put(s, n, v)[1..] == Put(s[1..], n, v);
    }
  }

  /** Assignment keeps a dictionary's keys unique. */
  lemma PutKeepsUnique(s: Scores, n: string, v: int)
    requires UniqueNames(s)
    ensures UniqueNames(Put(s, n, v))
  {
    PutKeys(s, n, v);
    if n !in Keys(s) {
      var k := Keys(s) + [n];
      forall i, j | 0 <= i < j < |k| ensures k[i] != k[j] {
        assert k[i] == Keys(s)[i];
      }
    }
  }

  /** The sum of a dictionary's values changes by the new value minus the
      one it replaces (0 for a new key). */
  lemma {:induction false} PutSum(s: Scores, n: string, v: int)
    ensures Sum(Put(s, n, v)) == Sum(s) - ValueOr0(s, n) + v
  {
    if s != [] && s[0].name != n {
      PutSum(s[1..], n, v);
    }
  }

  /** In a dictionary, each key is new when its pair is reached in order. */
  lemma {:induction false} FreshInPrefix(s: Scores, j: nat)
    requires UniqueNames(s) && j < |s|
    ensures s[j].name !in Keys(s[..j])
    ensures s[..j + 1] == s[..j] + [s[j]]
  {
    assert s[..j + 1] == s[..j] + [s[j]];
    forall k | 0 <= k < j ensures Keys(s[..j])[k] != s[j].name {
      assert Keys(s[..j])[k] == s[k].name == Keys(s)[k];
      assert Keys(s)[j] == s[j].name;
    }
  }

  /** Every prefix of a dictionary is a dictionary. */
  lemma UniquePrefix(s: Scores, k: nat)
    requires UniqueNames(s) && k <= |s|
    ensures UniqueNames(s[..k])
  {
    forall i, j | 0 <= i < j < k ensures Keys(s[..k])[i] != Keys(s[..k])[j] {
      assert Keys(s[..k])[i] == Keys(s)[i] && Keys(s[..k])[j] == Keys(s)[j];
    }
  }

  /** Appending a pair under a new key: lookups and the sum extend as expected. */
  lemma {:induction false} AppendEntry(s: Scores, e: Entry)
    requires e.name !in Keys(s)
    ensures Keys(s + [e]) == Keys(s) + [e.name]
    ensures Sum(s + [e]) == Sum(s) + e.delta
    ensures Get(s + [e], e.name) == Some(e.delta)
    ensures forall m | m != e.name :: Get(s + [e], m) == Get(s, m)
  {
    assert Keys(s + [e]) == Keys(s) + [e.name];
    if s != [] {
      assert (s + [e])[1..] == s[1..] + [e];
      assert Keys(s) == [s[0].name] + Keys(s[1..]);
      AppendEntry(s[1..], e);
    }
  }

  predicate Distinct(names: seq<string>) {
    forall i, j | 0 <= i < j < |names| :: names[i] != names[j]
  }

  /** A player as the setup page sends it: `{name, initial}`. */
  datatype Player = Player(name: string, initial: int)

  function PlayerNames(players: seq<Player>): (names: seq<string>)
    ensures |names| == |players|
    ensures forall i | 0 <= i < |players| :: names[i] == players[i].name
  {
    seq(|players|, i requires 0 <= i < |players| => players[i].name)
  }

  /** One accepted round: its score dictionary and its admin, if any. */
  datatype Round = Round(scores: Scores, admin: Option<string>)

  /** A player's deltas over a list of rounds, added up in round order
      (a missing key counts as 0). */
  function SumFor(rounds: seq<Round>, n: string): int {
    if rounds == [] then 0
    else SumFor(rounds[..|rounds| - 1], n) + ValueOr0(rounds[|rounds| - 1].scores, n)
  }

  /** Every name that occurs as a key in some round. */
  function Mentioned(rounds: seq<Round>): set<string> {
    if rounds == [] then {}
    else Mentioned(rounds[..|rounds| - 1]) + KeySet(rounds[|rounds| - 1].scores)
  }

  /** The value of `n` in `m`, or 0 when `n` is not a key. */
  function MapOr0(m: map<string, int>, n: string): int {
    if n in m then m[n] else 0
  }

  /** The four admin modes; any other mode string is `Unrecognised`. */
  datatype AdminMode = NoAdmin | Fixed | Rotating | Manual | Unrecognised

  /** `admin_config`: `{fixed_index}` or `{every, start}`; a key may be absent. */
  datatype AdminConfig = AdminConfig(fixedIndex: Option<int>, every: Option<int>, start: Option<int>)

  /** The state snapshot the server returns and the browser renders. */
  datatype StateView = StateView(
    started: bool,
    gameCode: string,
    players: seq<string>,
    mode: AdminMode,
    config: AdminConfig,
    rounds: seq<Round>,
    totals: map<string, int>,
    nextAdmin: Option<string>,
    roundNumber: int)
}
