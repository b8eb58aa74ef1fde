/** `resultsByGame`: the result rows grouped by `game_id`, built by the same
    `forEach` loop in `/h2h` and `/history`. */
module Grouping {
  import opened Records

  /** The rows of one game, in input order. */
  function ResultsOf(results: seq<ResultRow>, gameId: string): (rs: seq<ResultRow>)
    ensures |rs| <= |results|
    ensures forall r :: r in rs ==> r in results && r.gameId == gameId
  {
    if |results| == 0 then []
    else
      var last := results[|results| - 1];
      ResultsOf(results[..|results| - 1], gameId) + (if last.gameId == gameId then [last] else [])
  }

  /** `resultsByGame[game.id] || []`. */
  function ResultsFor(byGame: map<string, seq<ResultRow>>, gameId: string): seq<ResultRow> {
    if gameId in byGame then byGame[gameId] else []
  }

  /** One visit of the callback: the bucket of the row's game is created
      if missing, and the row is pushed onto it. */
  function Push(byGame: map<string, seq<ResultRow>>, r: ResultRow): map<string, seq<ResultRow>> {
    byGame[r.gameId := ResultsFor(byGame, r.gameId) + [r]]
  }

  lemma ResultsOfStep(results: seq<ResultRow>, i: nat, g: string)
    requires i < |results|
    ensures ResultsOf(results[..i + 1], g) == ResultsOf(results[..i], g) + (if results[i].gameId == g then [results[i]] else [])
  {
    assert results[..i + 1][..i] == results[..i];
    assert results[..i + 1][i] == results[i];
  }

  /** `byGame` holds a bucket exactly for the games of `rows`, each with
      its game's rows in order. */
  ghost predicate Grouped(byGame: map<string, seq<ResultRow>>, rows: seq<ResultRow>) {
    && (forall g :: g in byGame <==> ResultsOf(rows, g) != [])
    && (forall g :: ResultsFor(byGame, g) == ResultsOf(rows, g))
  }

  /** Pushing row `i` extends the grouping of the rows before it to the
      grouping of the rows up to it. */
  lemma PushStep(results: seq<ResultRow>, i: nat, byGame: map<string, seq<ResultRow>>)
    requires i < |results| && Grouped(byGame, results[..i])
    ensures Grouped(Push(byGame, results[i]), results[..i + 1])
  {
    forall g
      ensures g in Push(byGame, results[i]) <==> ResultsOf(results[..i + 1], g) != []
      ensures ResultsFor(Push(byGame, results[i]), g) == ResultsOf(results[..i + 1], g)
    {
      ResultsOfStep(results, i, g);
    }
  }

  /** The grouping loop: a bucket is created for a game id the first time a
      row of that game is seen, and each row is pushed onto its bucket. */
  method GroupByGame(results: seq<ResultRow>) returns (byGame: map<string, seq<ResultRow>>)
    ensures forall g :: g in byGame <==> ResultsOf(results, g) != []
    ensures forall g :: ResultsFor(byGame, g) == ResultsOf(results, g)
  {
    byGame := map[];
    var i := 0;
    while i < |results|
      invariant 0 <= i <= |results|
      invariant Grouped(byGame, results[..i])
    {
      PushStep(results, i, byGame);
      byGame := Push(byGame, results[i]);
      i := i + 1;
    }
    assert results[..i] == results;
  }

  /** No row is lost: each row is in the bucket of its own game. */
  lemma {:induction false} EveryRowInItsBucket(results: seq<ResultRow>, k: nat)
    requires k < |results|
    ensures results[k] in ResultsOf(results, results[k].gameId)
  {
    var n := |results|;
    assert results[..n - 1] + [results[n - 1]] == results;
    if k < n - 1 {
      assert results[..n - 1][k] == results[k];
      EveryRowInItsBucket(results[..n - 1], k);
    }
  }
}
