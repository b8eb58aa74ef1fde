/** `/stats`: the two `reduce` aggregations over the guild's result rows,
    per player (`player` subcommand) and per player and commander
    (`commander` subcommand). Win rates and average positions are
    floating-point divisions and are not modelled. */
module Stats {
  import opened Wrappers
  import opened Text
  import opened Records

  /** An accumulator entry: the name (and commander) of the first row seen
      for the key, the games, the wins and the positions in input order. */
  datatype Group = Group(name: string, commander: Option<string>, games: nat, wins: nat, positions: seq<Option<int>>)

  /** The key of the `player` subcommand. */
  function PlayerKey(r: ResultRow): string {
    r.playerId
  }

  /** The key of the `commander` subcommand, `${player_id}-${commander_id}`. */
  function CommanderKey(r: ResultRow): string {
    r.playerId + "-" + r.commanderId
  }

  /** The rows with key `k`, in input order. */
  function RowsWithKey(results: seq<ResultRow>, key: ResultRow -> string, k: string): (rs: seq<ResultRow>)
    ensures |rs| <= |results|
    ensures forall r :: r in rs ==> r in results && key(r) == k
  {
    if |results| == 0 then []
    else
      var last := results[|results| - 1];
      RowsWithKey(results[..|results| - 1], key, k) + (if key(last) == k then [last] else [])
  }

  function WinsIn(rows: seq<ResultRow>): nat {
    if |rows| == 0 then 0 else WinsIn(rows[..|rows| - 1]) + (if IsWin(rows[|rows| - 1]) then 1 else 0)
  }

  function PositionsIn(rows: seq<ResultRow>): (ps: seq<Option<int>>)
    ensures |ps| == |rows|
    ensures forall i :: 0 <= i < |rows| ==> ps[i] == rows[i].position
  {
    seq(|rows|, i requires 0 <= i < |rows| => rows[i].position)
  }

  /** The entry a non-empty run of rows of one key produces. */
  function Summary(rows: seq<ResultRow>): Group
    requires |rows| > 0
  {
    Group(rows[0].playerName, rows[0].commanderName, |rows|, WinsIn(rows), PositionsIn(rows))
  }

  /** The keys in the order they are first seen (`Object.values` order). */
  function KeysInOrder(results: seq<ResultRow>, key: ResultRow -> string): (ks: seq<string>)
    ensures forall i, j :: 0 <= i < j < |ks| ==> ks[i] != ks[j]
    ensures forall k :: k in ks <==> RowsWithKey(results, key, k) != []
  {
    if |results| == 0 then []
    else
      var prefix := KeysInOrder(results[..|results| - 1], key);
      var k := key(results[|results| - 1]);
      if k in prefix then prefix else prefix + [k]
  }

  /** The index of the first row with key `k`, or `|results|` when there
      is none. */
  function FirstSeen(results: seq<ResultRow>, key: ResultRow -> string, k: string): (n: nat)
    ensures n <= |results|
    ensures n < |results| ==> key(results[n]) == k
    ensures forall m :: 0 <= m < n ==> key(results[m]) != k
  {
    if |results| == 0 then 0
    else
      var last := |results| - 1;
      var before := FirstSeen(results[..last], key, k);
      if before < last then before
      else if key(results[last]) == k then last
      else |results|
  }

  /** A key is listed exactly when it has a first row. */
  lemma {:induction false} KeyListedIffSeen(results: seq<ResultRow>, key: ResultRow -> string, k: string)
    ensures k in KeysInOrder(results, key) <==> FirstSeen(results, key, k) < |results|
  {
    if |results| > 0 {
      var last := |results| - 1;
      var prefix := results[..last];
      KeyListedIffSeen(prefix, key, k);
      var newKey := key(results[last]);
      assert KeysInOrder(results, key) == if newKey in KeysInOrder(prefix, key) then KeysInOrder(prefix, key) else KeysInOrder(prefix, key) + [newKey];
    }
  }

  /** Every row with key `k` is among the entry's rows. */
  lemma {:induction false} RowsWithKeyComplete(results: seq<ResultRow>, key: ResultRow -> string, k: string, i: nat)
    requires i < |results| && key(results[i]) == k
    ensures results[i] in RowsWithKey(results, key, k)
  {
    var last := |results| - 1;
    var prefix := results[..last];
    assert RowsWithKey(results, key, k) == RowsWithKey(prefix, key, k) + (if key(results[last]) == k then [results[last]] else []);
    if i < last {
      assert prefix[i] == results[i];
      RowsWithKeyComplete(prefix, key, k, i);
    }
  }

  /** The key of every row, in input order. */
  function KeysOf(results: seq<ResultRow>, key: ResultRow -> string): (ks: seq<string>)
    ensures |ks| == |results|
  {
    if |results| == 0 then [] else KeysOf(results[..|results| - 1], key) + [key(results[|results| - 1])]
  }

  lemma {:induction false} KeysOfAt(results: seq<ResultRow>, key: ResultRow -> string, i: nat)
    requires i < |results|
    ensures KeysOf(results, key)[i] == key(results[i])
  {
    var last := |results| - 1;
    if i < last {
      KeysOfAt(results[..last], key, i);
    }
  }

  /** An entry holds as many rows as there are input rows with its key. */
  lemma {:induction false} RowsWithKeyCount(results: seq<ResultRow>, key: ResultRow -> string, k: string)
    ensures |RowsWithKey(results, key, k)| == multiset(KeysOf(results, key))[k]
  {
    if |results| > 0 {
      var last := |results| - 1;
      var prefix := results[..last];
      RowsWithKeyCount(prefix, key, k);
      RowsWithKeyCountStep(results, key, k);
    }
  }

  /** The last row adds one to the entry's rows and to the occurrences of
      its key together, or to neither. */
  lemma RowsWithKeyCountStep(results: seq<ResultRow>, key: ResultRow -> string, k: string)
    requires |results| > 0
    ensures var prefix := results[..|results| - 1];
      |RowsWithKey(results, key, k)| - multiset(KeysOf(results, key))[k] == |RowsWithKey(prefix, key, k)| - multiset(KeysOf(prefix, key))[k]
  {
    var prefix := results[..|results| - 1];
    RowsWithKeyLastCount(results, key, k);
    KeysOfLast(results, key);
    CountStep(KeysOf(results, key), KeysOf(prefix, key), key(results[|results| - 1]), k);
  }

  /** Appending `x` to a list adds one occurrence of `k` exactly when `x == k`. */
  lemma CountStep(ks: seq<string>, ks0: seq<string>, x: string, k: string)
    requires ks == ks0 + [x]
    ensures multiset(ks)[k] == multiset(ks0)[k] + (if x == k then 1 else 0)
  {
    assert multiset(ks) == multiset(ks0) + multiset{x};
  }

  lemma KeysOfLast(results: seq<ResultRow>, key: ResultRow -> string)
    requires |results| > 0
    ensures KeysOf(results, key) == KeysOf(results[..|results| - 1], key) + [key(results[|results| - 1])]
  {
  }

  lemma RowsWithKeyLastCount(results: seq<ResultRow>, key: ResultRow -> string, k: string)
    requires |results| > 0
    ensures |RowsWithKey(results, key, k)| == |RowsWithKey(results[..|results| - 1], key, k)| + (if key(results[|results| - 1]) == k then 1 else 0)
  {
  }

  /** An entry's rows are non-empty exactly when its key has a first row,
      and then they start with that row, so the entry's names are those of
      the first row seen for the key. */
  lemma {:induction false} RowsWithKeyFirst(results: seq<ResultRow>, key: ResultRow -> string, k: string)
    ensures RowsWithKey(results, key, k) != [] <==> FirstSeen(results, key, k) < |results|
    ensures RowsWithKey(results, key, k) != [] ==> RowsWithKey(results, key, k)[0] == results[FirstSeen(results, key, k)]
  {
    if |results| > 0 {
      var last := |results| - 1;
      var prefix := results[..last];
      RowsWithKeyFirst(prefix, key, k);
      var before := RowsWithKey(prefix, key, k);
      assert RowsWithKey(results, key, k) == before + (if key(results[last]) == k then [results[last]] else []);
      if before != [] {
        assert prefix[FirstSeen(prefix, key, k)] == results[FirstSeen(prefix, key, k)];
      }
    }
  }

  /** A key already listed before the last row keeps its first row. */
  lemma FirstSeenKept(results: seq<ResultRow>, key: ResultRow -> string, k: string)
    requires |results| > 0 && k in KeysInOrder(results[..|results| - 1], key)
    ensures FirstSeen(results, key, k) == FirstSeen(results[..|results| - 1], key, k) < |results| - 1
  {
    KeyListedIffSeen(results[..|results| - 1], key, k);
  }

  /** A key not listed before the last row is first seen there. */
  lemma FirstSeenNew(results: seq<ResultRow>, key: ResultRow -> string)
    requires |results| > 0 && key(results[|results| - 1]) !in KeysInOrder(results[..|results| - 1], key)
    ensures FirstSeen(results, key, key(results[|results| - 1])) == |results| - 1
  {
    KeyListedIffSeen(results[..|results| - 1], key, key(results[|results| - 1]));
  }

  /** Appending a key ranked after every listed one keeps a listing
      strictly increasing in rank, when the listed keys keep the ranks
      they had before. */
  lemma RankedAppend(before: seq<string>, ks: seq<string>, newKey: string, rankBefore: string -> nat, rank: string -> nat, bound: nat)
    requires ks == if newKey in before then before else before + [newKey]
    requires forall i, j :: 0 <= i < j < |before| ==> rankBefore(before[i]) < rankBefore(before[j])
    requires forall k :: k in before ==> rank(k) == rankBefore(k)
    requires forall k :: k in before ==> rank(k) < bound
    requires newKey !in before ==> rank(newKey) == bound
    ensures forall i, j :: 0 <= i < j < |ks| ==> rank(ks[i]) < rank(ks[j])
  {
    forall i, j | 0 <= i < j < |ks|
      ensures rank(ks[i]) < rank(ks[j])
    {
      assert ks[i] == before[i] && before[i] in before;
      if j < |before| {
        assert ks[j] == before[j] && before[j] in before;
      }
    }
  }

  /** The keys are listed in the order of their first rows. */
  lemma {:induction false} KeysInFirstSeenOrder(results: seq<ResultRow>, key: ResultRow -> string)
    ensures var ks := KeysInOrder(results, key);
      forall i, j :: 0 <= i < j < |ks| ==> FirstSeen(results, key, ks[i]) < FirstSeen(results, key, ks[j])
  {
    if |results| > 0 {
      var last := |results| - 1;
      var prefix := results[..last];
      KeysInFirstSeenOrder(prefix, key);
      var before := KeysInOrder(prefix, key);
      var newKey := key(results[last]);
      assert prefix + [results[last]] == results;
      KeysInOrderAppend(prefix, results[last], key);
      forall k | k in before
        ensures FirstSeen(results, key, k) == FirstSeen(prefix, key, k)
        ensures FirstSeen(prefix, key, k) < last
      {
        FirstSeenKept(results, key, k);
        assert prefix == results[..|results| - 1];
      }
      if newKey !in before {
        FirstSeenNew(results, key);
      }
      RankedAppend(before, KeysInOrder(results, key), newKey, k => FirstSeen(prefix, key, k), k => FirstSeen(results, key, k), last);
    }
  }

  /** One visit of the callback to an entry: one more game, the row's
      position appended, one more win for position 1. */
  function Count(g: Group, r: ResultRow): Group {
    g.(games := g.games + 1, positions := g.positions + [r.position], wins := if IsWin(r) then g.wins + 1 else g.wins)
  }

  lemma RowsWithKeyAppend(results: seq<ResultRow>, r: ResultRow, key: ResultRow -> string, k: string)
    ensures RowsWithKey(results + [r], key, k) == RowsWithKey(results, key, k) + (if key(r) == k then [r] else [])
  {
    assert (results + [r])[..|results|] == results;
  }

  lemma KeysInOrderAppend(results: seq<ResultRow>, r: ResultRow, key: ResultRow -> string)
    ensures KeysInOrder(results + [r], key) == KeysInOrder(results, key) + (if key(r) in KeysInOrder(results, key) then [] else [key(r)])
  {
    assert (results + [r])[..|results|] == results;
  }

  lemma SummaryAppend(rows: seq<ResultRow>, r: ResultRow)
    ensures |rows| > 0 ==> Summary(rows + [r]) == Count(Summary(rows), r)
    ensures |rows| == 0 ==> Summary(rows + [r]) == Count(Group(r.playerName, r.commanderName, 0, 0, []), r)
  {
    assert (rows + [r])[..|rows|] == rows;
    assert PositionsIn(rows + [r]) == PositionsIn(rows) + [r.position];
    if |rows| == 0 {
      assert rows + [r] == [r];
      assert WinsIn([r]) == (if IsWin(r) then 1 else 0) by {
        assert [r][..0] == [];
      }
      assert PositionsIn([r]) == [r.position];
    } else {
      assert (rows + [r])[0] == rows[0];
    }
  }

  /** The accumulator after the callback visits `r`. */
  function Visit(groups: map<string, Group>, r: ResultRow, key: ResultRow -> string): map<string, Group> {
    var k := key(r);
    var g := if k in groups then groups[k] else Group(r.playerName, r.commanderName, 0, 0, []);
    groups[k := Count(g, r)]
  }

  /** The accumulator over `results` matches the entries of `results`. */
  ghost predicate Accumulated(results: seq<ResultRow>, key: ResultRow -> string, order: seq<string>, groups: map<string, Group>) {
    && order == KeysInOrder(results, key)
    && (forall k :: k in groups <==> k in order)
    && (forall k :: k in groups ==> groups[k] == Summary(RowsWithKey(results, key, k)))
  }

  lemma VisitEntry(results: seq<ResultRow>, r: ResultRow, key: ResultRow -> string, order: seq<string>, groups: map<string, Group>, k': string)
    requires Accumulated(results, key, order, groups)
    requires k' in Visit(groups, r, key)
    ensures Visit(groups, r, key)[k'] == Summary(RowsWithKey(results + [r], key, k'))
  {
    var k := key(r);
    var after := Visit(groups, r, key);
    RowsWithKeyAppend(results, r, key, k');
    var before := RowsWithKey(results, key, k');
    if k' == k {
      SummaryAppend(before, r);
      if k in groups {
        assert before != [];
        assert after[k'] == Count(Summary(before), r);
      } else {
        assert before == [];
        assert after[k'] == Count(Group(r.playerName, r.commanderName, 0, 0, []), r);
      }
    } else {
      assert RowsWithKey(results + [r], key, k') == before;
      assert k' in groups && after[k'] == groups[k'];
    }
  }

  lemma VisitKeys(results: seq<ResultRow>, r: ResultRow, key: ResultRow -> string, order: seq<string>, groups: map<string, Group>)
    requires Accumulated(results, key, order, groups)
    ensures var order' := if key(r) in groups then order else order + [key(r)];
      order' == KeysInOrder(results + [r], key) && forall k' :: k' in Visit(groups, r, key) <==> k' in order'
  {
    KeysInOrderAppend(results, r, key);
  }

  lemma VisitStep(results: seq<ResultRow>, r: ResultRow, key: ResultRow -> string, order: seq<string>, groups: map<string, Group>)
    requires Accumulated(results, key, order, groups)
    ensures forall k' :: k' in Visit(groups, r, key) ==> Visit(groups, r, key)[k'] == Summary(RowsWithKey(results + [r], key, k'))
  {
    VisitKeys(results, r, key, order, groups);
    var after := Visit(groups, r, key);
    forall k' | k' in after
      ensures after[k'] == Summary(RowsWithKey(results + [r], key, k'))
    {
      VisitEntry(results, r, key, order, groups, k');
    }
  }

  /** Visiting one more row keeps the accumulator in step with the rows. */
  lemma AccumulatedStep(results: seq<ResultRow>, r: ResultRow, key: ResultRow -> string, order: seq<string>, groups: map<string, Group>)
    requires Accumulated(results, key, order, groups)
    ensures Accumulated(results + [r], key, if key(r) in groups then order else order + [key(r)], Visit(groups, r, key))
  {
    VisitKeys(results, r, key, order, groups);
    VisitStep(results, r, key, order, groups);
  }

  /** The same step, for the loop that visits `results[i]`. */
  lemma AccumulatedNext(results: seq<ResultRow>, i: nat, key: ResultRow -> string, order: seq<string>, groups: map<string, Group>)
    requires i < |results| && Accumulated(results[..i], key, order, groups)
    ensures var r := results[i];
      Accumulated(results[..i + 1], key, if key(r) in groups then order else order + [key(r)], Visit(groups, r, key))
  {
    assert results[..i + 1] == results[..i] + [results[i]];
    AccumulatedStep(results[..i], results[i], key, order, groups);
  }

  /** The `reduce` callback run over all rows: a new key gets an entry from
      its first row, then the entry's games, positions and wins grow. */
  method Aggregate(results: seq<ResultRow>, key: ResultRow -> string)
    returns (order: seq<string>, groups: map<string, Group>)
    ensures order == KeysInOrder(results, key)
    ensures forall k :: k in groups <==> k in order
    ensures forall k :: k in groups ==> groups[k] == Summary(RowsWithKey(results, key, k))
  {
    order, groups := [], map[];
    var i := 0;
    while i < |results|
      invariant 0 <= i <= |results|
      invariant Accumulated(results[..i], key, order, groups)
    {
      var r := results[i];
      AccumulatedNext(results, i, key, order, groups);
      if key(r) !in groups {
        order := order + [key(r)];
      }
      groups := Visit(groups, r, key);
      i := i + 1;
    }
    assert results[..i] == results;
  }

  /** The wins of an entry never exceed its games. */
  lemma {:induction false} WinsAtMostGames(rows: seq<ResultRow>)
    ensures WinsIn(rows) <= |rows|
  {
    if |rows| > 0 {
      WinsAtMostGames(rows[..|rows| - 1]);
    }
  }

  /** The wins of an entry are the number of its positions equal to 1. */
  lemma {:induction false} WinsAreFirstPlaces(rows: seq<ResultRow>)
    ensures WinsIn(rows) == multiset(PositionsIn(rows))[Some(1)]
  {
    var n := |rows|;
    if n > 0 {
      var prefix := rows[..n - 1];
      WinsAreFirstPlaces(prefix);
      assert PositionsIn(rows) == PositionsIn(prefix) + [rows[n - 1].position];
    }
  }

  /** The games summed over the entries, in key order. */
  function TotalGames(order: seq<string>, results: seq<ResultRow>, key: ResultRow -> string): nat {
    if |order| == 0 then 0
    else TotalGames(order[..|order| - 1], results, key) + |RowsWithKey(results, key, order[|order| - 1])|
  }

  /** Adding one row of key `k` adds one game to `k`'s entry and nothing to
      the others. */
  lemma {:induction false} TotalGamesStep(order: seq<string>, results: seq<ResultRow>, r: ResultRow, key: ResultRow -> string)
    requires forall i, j :: 0 <= i < j < |order| ==> order[i] != order[j]
    ensures TotalGames(order, results + [r], key) == TotalGames(order, results, key) + (if key(r) in order then 1 else 0)
  {
    if |order| > 0 {
      var prefix := order[..|order| - 1];
      TotalGamesStep(prefix, results, r, key);
      assert (results + [r])[..|results|] == results;
      var last := order[|order| - 1];
      assert key(r) in order <==> key(r) in prefix || key(r) == last;
      assert key(r) == last ==> key(r) !in prefix;
    }
  }

  lemma {:induction false} TotalGamesAppend(order: seq<string>, k: string, results: seq<ResultRow>, key: ResultRow -> string)
    ensures TotalGames(order + [k], results, key) == TotalGames(order, results, key) + |RowsWithKey(results, key, k)|
  {
    assert (order + [k])[..|order|] == order;
  }

  /** Every row is counted in exactly one entry: the games of all entries
      add up to the number of rows. */
  lemma {:induction false} GamesAddUp(results: seq<ResultRow>, key: ResultRow -> string)
    ensures TotalGames(KeysInOrder(results, key), results, key) == |results|
  {
    if |results| > 0 {
      var n := |results|;
      var prefix := results[..n - 1];
      var r := results[n - 1];
      assert prefix + [r] == results;
      GamesAddUp(prefix, key);
      var before := KeysInOrder(prefix, key);
      TotalGamesStep(before, prefix, r, key);
      if key(r) !in before {
        TotalGamesAppend(before, key(r), results, key);
        assert RowsWithKey(prefix, key, key(r)) == [];
        assert RowsWithKey(results, key, key(r)) == [r];
      }
    }
  }

  /** Commander entries: with player ids free of '-' (Discord ids and guest
      ids are), two rows share an entry exactly when they share both the
      player and the commander. */
  lemma CommanderKeySeparates(r1: ResultRow, r2: ResultRow)
    requires '-' !in r1.playerId && '-' !in r2.playerId
    ensures CommanderKey(r1) == CommanderKey(r2) <==> r1.playerId == r2.playerId && r1.commanderId == r2.commanderId
  {
    if CommanderKey(r1) == CommanderKey(r2) {
      SplitAtFirst(r1.playerId, '-', r1.commanderId);
      SplitAtFirst(r2.playerId, '-', r2.commanderId);
      assert CommanderKey(r1) == r1.playerId + ['-'] + r1.commanderId;
      assert CommanderKey(r2) == r2.playerId + ['-'] + r2.commanderId;
      var p1 := Split(CommanderKey(r1), '-');
      assert p1[0] == r1.playerId && p1[0] == r2.playerId;
      assert r1.commanderId == CommanderKey(r1)[|r1.playerId| + 1..];
    }
  }

  /** `player` subcommand. */
  method PlayerStats(results: seq<ResultRow>) returns (order: seq<string>, groups: map<string, Group>)
    ensures order == KeysInOrder(results, PlayerKey)
    ensures forall k :: k in groups <==> k in order
    ensures forall k :: k in groups ==>
      var rows := RowsWithKey(results, PlayerKey, k);
      rows != [] && groups[k] == Summary(rows) && groups[k].wins <= groups[k].games
  {
    order, groups := Aggregate(results, PlayerKey);
    forall k | k in groups ensures groups[k].wins <= groups[k].games {
      WinsAtMostGames(RowsWithKey(results, PlayerKey, k));
    }
  }

  /** `commander` subcommand. */
  method CommanderStats(results: seq<ResultRow>) returns (order: seq<string>, groups: map<string, Group>)
    ensures order == KeysInOrder(results, CommanderKey)
    ensures forall k :: k in groups <==> k in order
    ensures forall k :: k in groups ==>
      var rows := RowsWithKey(results, CommanderKey, k);
      rows != [] && groups[k] == Summary(rows) && groups[k].wins <= groups[k].games
  {
    order, groups := Aggregate(results, CommanderKey);
    forall k | k in groups ensures groups[k].wins <= groups[k].games {
      WinsAtMostGames(RowsWithKey(results, CommanderKey, k));
    }
  }
}
