/** `/h2h`: the head-to-head record of two players. The games of the guild
    and their result rows are inputs (the database reads are not modelled);
    what remains is the selection of the games both played, the win and game
    counters, the newest-first page of three games and the button row. */
module HeadToHead {
  import opened Wrappers
  import opened Text
  import opened Records
  import opened Sorting
  import opened Paging
  import opened Grouping

  const GamesPerPage := 3

  /** An entry of `gamesWithBothPlayers`. */
  datatype Matchup = Matchup(game: GameRow, results: seq<ResultRow>)

  /** An entry of `allMatchupDetails`. */
  datatype Detail = Detail(
    gameId: string,
    date: int,
    p1Position: Option<int>,
    p2Position: Option<int>,
    p1Commander: Option<string>,
    p2Commander: Option<string>,
    totalPlayers: nat)

  /** The counters `player1Wins`, `player2Wins`, `player1TotalGames`,
      `player2TotalGames` and the list of matchup details. */
  datatype Tally = Tally(p1Wins: nat, p2Wins: nat, p1Games: nat, p2Games: nat, details: seq<Detail>)

  /** `results.some((r) => r.player_id === playerId)`. */
  predicate Played(results: seq<ResultRow>, playerId: string) {
    exists r :: r in results && r.playerId == playerId
  }

  /** `results.find((r) => r.player_id === playerId)`. */
  function FirstResult(results: seq<ResultRow>, playerId: string): (r: Option<ResultRow>)
    ensures r.Some? <==> Played(results, playerId)
    ensures r.Some? ==> r.value in results && r.value.playerId == playerId
  {
    if |results| == 0 then None
    else if results[0].playerId == playerId then Some(results[0])
    else FirstResult(results[1..], playerId)
  }

  /** `find` gives the player's first row. */
  lemma {:induction false} FirstResultIsFirst(results: seq<ResultRow>, playerId: string, i: nat)
    requires i < |results| && results[i].playerId == playerId
    requires forall j :: 0 <= j < i ==> results[j].playerId != playerId
    ensures FirstResult(results, playerId) == Some(results[i])
  {
    if i > 0 {
      assert results[1..][i - 1] == results[i];
      assert forall j :: 0 <= j < i - 1 ==> results[1..][j] == results[j + 1];
      FirstResultIsFirst(results[1..], playerId, i - 1);
    }
  }

  /** The games (in input order) whose results include both players. */
  function BothPlayed(games: seq<GameRow>, allResults: seq<ResultRow>, p1: string, p2: string): seq<Matchup> {
    if |games| == 0 then []
    else
      var g := games[|games| - 1];
      var rs := ResultsOf(allResults, g.id);
      BothPlayed(games[..|games| - 1], allResults, p1, p2)
        + (if Played(rs, p1) && Played(rs, p2) then [Matchup(g, rs)] else [])
  }

  /** The `games.forEach` loop that fills `gamesWithBothPlayers`. */
  method SelectGamesWithBoth(games: seq<GameRow>, allResults: seq<ResultRow>, byGame: map<string, seq<ResultRow>>, p1: string, p2: string)
    returns (both: seq<Matchup>)
    requires forall g :: ResultsFor(byGame, g) == ResultsOf(allResults, g)
    ensures both == BothPlayed(games, allResults, p1, p2)
  {
    both := [];
    var i := 0;
    while i < |games|
      invariant 0 <= i <= |games|
      invariant both == BothPlayed(games[..i], allResults, p1, p2)
    {
      var g := games[i];
      var rs := ResultsFor(byGame, g.id);
      if Played(rs, p1) && Played(rs, p2) {
        both := both + [Matchup(g, rs)];
      }
      assert games[..i + 1][..i] == games[..i];
      i := i + 1;
    }
    assert games[..i] == games;
  }

  /** A matchup is selected from `games` when it is selected from all but
      the last game, or it is the last game and both players are in it. */
  lemma BothPlayedLast(games: seq<GameRow>, allResults: seq<ResultRow>, p1: string, p2: string, m: Matchup,
                       prefix: seq<GameRow>, last: GameRow, rs: seq<ResultRow>)
    requires |games| > 0 && prefix == games[..|games| - 1] && last == games[|games| - 1]
    requires rs == ResultsOf(allResults, last.id)
    ensures m in BothPlayed(games, allResults, p1, p2) <==>
      m in BothPlayed(prefix, allResults, p1, p2) || (m == Matchup(last, rs) && Played(rs, p1) && Played(rs, p2))
    ensures m.game in games <==> m.game in prefix || m.game == last
  {
    assert games == prefix + [last];
  }

  /** A matchup is selected exactly when its game is one of the games, it
      carries that game's results, and both players are among them. */
  lemma {:induction false} BothPlayedExactly(games: seq<GameRow>, allResults: seq<ResultRow>, p1: string, p2: string, m: Matchup)
    ensures m in BothPlayed(games, allResults, p1, p2) <==>
      m.game in games && m.results == ResultsOf(allResults, m.game.id) && Played(m.results, p1) && Played(m.results, p2)
  {
    if |games| > 0 {
      var prefix := games[..|games| - 1];
      var last := games[|games| - 1];
      BothPlayedLast(games, allResults, p1, p2, m, prefix, last, ResultsOf(allResults, last.id));
      BothPlayedExactly(prefix, allResults, p1, p2, m);
    }
  }

  function DetailOf(m: Matchup, r1: ResultRow, r2: ResultRow): Detail {
    Detail(m.game.id, m.game.createdAt, r1.position, r2.position, r1.commanderName, r2.commanderName, |m.results|)
  }

  function Bit(b: bool): nat {
    if b then 1 else 0
  }

  /** The counters after the matchups `both`: a matchup where both players'
      first results are found counts one game for each, a win for a player
      whose first result has position 1, and adds a detail. */
  function TallyOf(both: seq<Matchup>, p1: string, p2: string): (t: Tally)
    ensures t.p1Games == t.p2Games == |t.details| <= |both|
    ensures t.p1Wins <= t.p1Games && t.p2Wins <= t.p2Games
  {
    if |both| == 0 then Tally(0, 0, 0, 0, [])
    else
      var t := TallyOf(both[..|both| - 1], p1, p2);
      var m := both[|both| - 1];
      match (FirstResult(m.results, p1), FirstResult(m.results, p2))
      case (Some(r1), Some(r2)) =>
        Tally(t.p1Wins + Bit(IsWin(r1)), t.p2Wins + Bit(IsWin(r2)),
              t.p1Games + 1, t.p2Games + 1, t.details + [DetailOf(m, r1, r2)])
      case _ => t
  }

  /** The `gamesWithBothPlayers.forEach` loop with its counters. */
  method CountMatchups(both: seq<Matchup>, p1: string, p2: string) returns (t: Tally)
    ensures t == TallyOf(both, p1, p2)
  {
    t := Tally(0, 0, 0, 0, []);
    var i := 0;
    while i < |both|
      invariant 0 <= i <= |both|
      invariant t == TallyOf(both[..i], p1, p2)
    {
      var m := both[i];
      var r1 := FirstResult(m.results, p1);
      var r2 := FirstResult(m.results, p2);
      if r1.Some? && r2.Some? {
        var w1 := if IsWin(r1.value) then t.p1Wins + 1 else t.p1Wins;
        var w2 := if IsWin(r2.value) then t.p2Wins + 1 else t.p2Wins;
        t := Tally(w1, w2, t.p1Games + 1, t.p2Games + 1, t.details + [DetailOf(m, r1.value, r2.value)]);
      }
      assert both[..i + 1][..i] == both[..i];
      i := i + 1;
    }
    assert both[..i] == both;
  }

  /** On the selected games the guard `player1Result && player2Result` always
      holds, so both game counters and the number of details equal the
      number of games played together. */
  lemma {:induction false} EverySelectedGameCounted(both: seq<Matchup>, p1: string, p2: string)
    requires forall m :: m in both ==> Played(m.results, p1) && Played(m.results, p2)
    ensures TallyOf(both, p1, p2).p1Games == |both|
    ensures |TallyOf(both, p1, p2).details| == |both|
  {
    if |both| > 0 {
      EverySelectedGameCounted(both[..|both| - 1], p1, p2);
      assert both[|both| - 1] in both;
    }
  }

  /** The ordering `new Date(b.date) - new Date(a.date)`: newest first. */
  function NewestFirst(d: Detail): int {
    -d.date
  }

  /** The breakdown line that names the winner; player 1 is named when both
      have position 1. */
  function WinnerText(d: Detail, p1Name: string, p2Name: string): string {
    if d.p1Position == Some(1) then "🥇 **" + p1Name + "** won"
    else if d.p2Position == Some(1) then "🥇 **" + p2Name + "** won"
    else "🎮 Neither player won"
  }

  /** The reply's components; the texts built from dates, averages and win
      rates are represented by the values they show. */
  datatype Component =
    | Header(p1Name: string, p2Name: string, gamesTogether: nat, page: nat, totalPages: nat)
    | Statistics(p1Wins: nat, p1Games: nat, p2Wins: nat, p2Games: nat)
    | BreakdownHeader
    | GameDetail(detail: Detail, winner: string)
    | Separator
    | Summary(p1Wins: nat, p2Wins: nat, othersWon: nat)
    | ButtonRow(buttons: seq<Button>)

  datatype Reply =
    | SelfCompare
    | NoGames
    | NoMatchups(p1Name: string, p2Name: string)
    | Report(components: seq<Component>)

  /** The components for the `k`-th of `n` details: the game, then a
      separator unless it is the last. */
  function DetailBlock(d: Detail, k: nat, n: nat, p1Name: string, p2Name: string): seq<Component> {
    [GameDetail(d, WinnerText(d, p1Name, p2Name))] + (if k + 1 < n then [Separator] else [])
  }

  /** The components for the first `|ds|` of `n` details. */
  function Breakdown(ds: seq<Detail>, n: nat, p1Name: string, p2Name: string): seq<Component> {
    if |ds| == 0 then []
    else Breakdown(ds[..|ds| - 1], n, p1Name, p2Name) + DetailBlock(ds[|ds| - 1], |ds| - 1, n, p1Name, p2Name)
  }

  /** The separators among the report's components. `/history` builds its
      own components and counts its separators in `History`. */
  function CountSeparators(cs: seq<Component>): nat {
    if |cs| == 0 then 0 else CountSeparators(cs[..|cs| - 1]) + Bit(cs[|cs| - 1] == Separator)
  }

  lemma CountSeparatorsAppend(a: seq<Component>, b: seq<Component>)
    ensures CountSeparators(a + b) == CountSeparators(a) + CountSeparators(b)
    decreases |b|
  {
    if |b| == 0 {
      assert a + b == a;
    } else {
      CountSeparatorsAppend(a, b[..|b| - 1]);
      assert (a + b)[..|a + b| - 1] == a + b[..|b| - 1];
      assert (a + b)[|a + b| - 1] == b[|b| - 1];
    }
  }

  /** A page of `n` details has `2n - 1` breakdown components, `n - 1` of
      them separators. */
  lemma {:induction false} BreakdownShape(ds: seq<Detail>, n: nat, p1Name: string, p2Name: string)
    requires 1 <= |ds| <= n
    ensures |Breakdown(ds, n, p1Name, p2Name)| == 2 * |ds| - (if |ds| == n then 1 else 0)
    ensures CountSeparators(Breakdown(ds, n, p1Name, p2Name)) == |ds| - (if |ds| == n then 1 else 0)
  {
    var prefix := ds[..|ds| - 1];
    var block := DetailBlock(ds[|ds| - 1], |ds| - 1, n, p1Name, p2Name);
    if |ds| > 1 {
      BreakdownShape(prefix, n, p1Name, p2Name);
    }
    CountSeparatorsAppend(Breakdown(prefix, n, p1Name, p2Name), block);
    CountSeparatorsAppend([block[0]], block[1..]);
    assert [block[0]] + block[1..] == block;
  }

  /** The `pageDetails.forEach` loop that pushes each game and the
      separators between games. */
  method BuildBreakdown(ds: seq<Detail>, p1Name: string, p2Name: string) returns (cs: seq<Component>)
    ensures cs == Breakdown(ds, |ds|, p1Name, p2Name)
  {
    cs := [];
    var i := 0;
    while i < |ds|
      invariant 0 <= i <= |ds|
      invariant cs == Breakdown(ds[..i], |ds|, p1Name, p2Name)
    {
      cs := cs + [GameDetail(ds[i], WinnerText(ds[i], p1Name, p2Name))];
      if i < |ds| - 1 {
        cs := cs + [Separator];
      }
      assert ds[..i + 1][..i] == ds[..i];
      i := i + 1;
    }
    assert ds[..i] == ds;
  }

  /** The summary line as written: `gamesWithBothPlayers.length -
      player1Wins - player2Wins`. */
  function OthersWonAsWritten(gamesTogether: nat, t: Tally): int {
    gamesTogether - t.p1Wins - t.p2Wins
  }

  /** The games neither player won, which the summary line means to show. */
  function NeitherWon(ds: seq<Detail>): (n: nat)
    ensures n <= |ds|
  {
    if |ds| == 0 then 0
    else NeitherWon(ds[..|ds| - 1]) + Bit(ds[|ds| - 1].p1Position != Some(1) && ds[|ds| - 1].p2Position != Some(1))
  }

  /** One game in which both players are recorded in position 1 (positions
      need not be distinct) makes the written summary report -1 games won by
      other players. */
  lemma OthersWonAsWrittenNegative()
    ensures var r1 := ResultRow("g", "a", "Ann", "c1", None, Some(1));
            var r2 := ResultRow("g", "b", "Bob", "c2", None, Some(1));
            var both := [Matchup(GameRow("g", 0), [r1, r2])];
            OthersWonAsWritten(|both|, TallyOf(both, "a", "b")) == -1
  {
    var r1 := ResultRow("g", "a", "Ann", "c1", None, Some(1));
    var r2 := ResultRow("g", "b", "Bob", "c2", None, Some(1));
    var m := Matchup(GameRow("g", 0), [r1, r2]);
    assert FirstResult(m.results, "a") == Some(r1);
    assert FirstResult(m.results, "b") == Some(r2);
    assert [m][..0] == [];
  }

  function BothWon(ds: seq<Detail>): nat {
    if |ds| == 0 then 0
    else BothWon(ds[..|ds| - 1]) + Bit(ds[|ds| - 1].p1Position == Some(1) && ds[|ds| - 1].p2Position == Some(1))
  }

  /** The corrected count never goes negative and differs from the written
      one by the games both players are recorded as winning. */
  lemma {:induction false} NeitherWonCount(both: seq<Matchup>, p1: string, p2: string)
    ensures var t := TallyOf(both, p1, p2);
      NeitherWon(t.details) == |t.details| - t.p1Wins - t.p2Wins + BothWon(t.details)
  {
    if |both| > 0 {
      NeitherWonCount(both[..|both| - 1], p1, p2);
      var t := TallyOf(both[..|both| - 1], p1, p2);
      var m := both[|both| - 1];
      match (FirstResult(m.results, p1), FirstResult(m.results, p2))
      case (Some(r1), Some(r2)) =>
        var ds := t.details + [DetailOf(m, r1, r2)];
        assert ds[..|ds| - 1] == t.details;
      case _ =>
    }
  }

  /** `h2h-{page}-{player1}-{player2}`. */
  function CustomId(page: nat, p1: string, p2: string): string {
    "h2h-" + NatToString(page) + "-" + p1 + "-" + p2
  }

  /** What `buttonInteraction` takes from a custom id:
      `[, page, player1Id, player2Id] = customId.split('-')` and
      `parseInt(page)`. */
  datatype Target = Target(page: Option<nat>, p1: Option<string>, p2: Option<string>)

  function ParseCustomId(customId: string): Target {
    var parts := Split(customId, '-');
    Target(if 1 < |parts| then ParseNat(parts[1]) else None, Part(parts, 2), Part(parts, 3))
  }

  /** The button ids give back their page and both players, provided the
      player ids contain no '-' (Discord ids are digits). */
  lemma CustomIdRoundTrip(page: nat, p1: string, p2: string)
    requires '-' !in p1 && '-' !in p2
    ensures ParseCustomId(CustomId(page, p1, p2)) == Target(Some(page), Some(p1), Some(p2))
  {
    var d := NatToString(page);
    DigitsHaveNoSeparator(d, '-');
    assert CustomId(page, p1, p2) == "h2h" + ['-'] + (d + ['-'] + (p1 + ['-'] + p2));
    SplitAtFirst("h2h", '-', d + ['-'] + (p1 + ['-'] + p2));
    SplitAtFirst(d, '-', p1 + ['-'] + p2);
    SplitAtFirst(p1, '-', p2);
    SplitWithoutSeparator(p2, '-');
    ParseNatToString(page);
  }

  /** The ids of the buttons of a report on two players. */
  function IdsFor(p1: string, p2: string): nat -> string {
    (page: nat) => CustomId(page, p1, p2)
  }

  /** The details shown on a page: newest first, three per page. */
  function PageOfDetails(details: seq<Detail>, page: nat): seq<Detail>
    requires page >= 1
  {
    PageSlice(SortBy(details, NewestFirst), page, GamesPerPage)
  }

  /** The game-by-game part, present only when the page is not past the end. */
  function BreakdownPart(pageDetails: seq<Detail>, p1Name: string, p2Name: string): seq<Component> {
    if |pageDetails| > 0 then [BreakdownHeader] + Breakdown(pageDetails, |pageDetails|, p1Name, p2Name) else []
  }

  /** The report on the matchups `both`: header, statistics, the page of
      details newest first, the summary and the button row. */
  function ReportFor(player1: User, player2: User, page: nat, both: seq<Matchup>): seq<Component>
    requires page >= 1
  {
    var t := TallyOf(both, player1.id, player2.id);
    var totalPages := TotalPages(|t.details|, GamesPerPage);
    [Header(player1.displayName, player2.displayName, |both|, page, totalPages),
     Statistics(t.p1Wins, t.p1Games, t.p2Wins, t.p2Games)]
    + BreakdownPart(PageOfDetails(t.details, page), player1.displayName, player2.displayName)
    + [Summary(t.p1Wins, t.p2Wins, NeitherWon(t.details)),
       ButtonRow(PageButtons(page, totalPages, IdsFor(player1.id, player2.id)))]
  }

  lemma NoSeparators(cs: seq<Component>)
    requires forall k :: 0 <= k < |cs| ==> cs[k] != Separator
    ensures CountSeparators(cs) == 0
  {
    if |cs| > 0 {
      NoSeparators(cs[..|cs| - 1]);
    }
  }

  lemma {:induction false} BreakdownPartShape(ds: seq<Detail>, p1Name: string, p2Name: string)
    ensures |BreakdownPart(ds, p1Name, p2Name)| == (if |ds| > 0 then 2 * |ds| else 0)
    ensures CountSeparators(BreakdownPart(ds, p1Name, p2Name)) == (if |ds| > 0 then |ds| - 1 else 0)
  {
    if |ds| > 0 {
      BreakdownShape(ds, |ds|, p1Name, p2Name);
      CountSeparatorsAppend([BreakdownHeader], Breakdown(ds, |ds|, p1Name, p2Name));
      NoSeparators([BreakdownHeader]);
    }
  }

  /** Both game counters of a report equal the number of games played
      together, and each win count is at most that. */
  lemma ReportCounts(p1: string, p2: string, games: seq<GameRow>, allResults: seq<ResultRow>)
    ensures var both := BothPlayed(games, allResults, p1, p2);
      var t := TallyOf(both, p1, p2);
      t.p1Games == t.p2Games == |both| && t.p1Wins <= |both| && t.p2Wins <= |both|
  {
    var both := BothPlayed(games, allResults, p1, p2);
    forall m | m in both ensures Played(m.results, p1) && Played(m.results, p2) {
      BothPlayedExactly(games, allResults, p1, p2, m);
    }
    EverySelectedGameCounted(both, p1, p2);
  }

  /** A report has header, statistics, summary and buttons, plus, when the
      page is not past the end, a breakdown header and the `k <= 3` games
      of the page with `k - 1` separators between them; the button row
      comes last. */
  lemma {:induction false} ReportShape(player1: User, player2: User, page: nat, both: seq<Matchup>,
                                       t: Tally, k: nat, cs: seq<Component>)
    requires page >= 1
    requires t == TallyOf(both, player1.id, player2.id)
    requires k == |PageOfDetails(t.details, page)|
    requires cs == ReportFor(player1, player2, page, both)
    ensures k <= GamesPerPage
    ensures |cs| == 4 + (if k > 0 then 2 * k else 0)
    ensures CountSeparators(cs) == (if k > 0 then k - 1 else 0)
    ensures cs[|cs| - 1] == ButtonRow(PageButtons(page, TotalPages(|t.details|, GamesPerPage), IdsFor(player1.id, player2.id)))
  {
    var totalPages := TotalPages(|t.details|, GamesPerPage);
    var head := [Header(player1.displayName, player2.displayName, |both|, page, totalPages),
                 Statistics(t.p1Wins, t.p1Games, t.p2Wins, t.p2Games)];
    var middle := BreakdownPart(PageOfDetails(t.details, page), player1.displayName, player2.displayName);
    var tail := [Summary(t.p1Wins, t.p2Wins, NeitherWon(t.details)),
                 ButtonRow(PageButtons(page, totalPages, IdsFor(player1.id, player2.id)))];
    var pageDetails := PageOfDetails(t.details, page);
    assert cs == head + middle + tail;
    BreakdownPartShape(pageDetails, player1.displayName, player2.displayName);
    FramedShape(head, middle, tail, k, cs);
  }

  /** Two components without separators, then `k` games' breakdown, then
      two more: the breakdown's separators are all there are, and the
      last of the tail comes last. */
  lemma FramedShape(head: seq<Component>, middle: seq<Component>, tail: seq<Component>, k: nat, cs: seq<Component>)
    requires |head| == 2 && head[0] != Separator && head[1] != Separator
    requires |tail| == 2 && tail[0] != Separator && tail[1] != Separator
    requires |middle| == (if k > 0 then 2 * k else 0)
    requires CountSeparators(middle) == (if k > 0 then k - 1 else 0)
    requires cs == head + middle + tail
    ensures |cs| == 4 + (if k > 0 then 2 * k else 0)
    ensures CountSeparators(cs) == (if k > 0 then k - 1 else 0)
    ensures cs[|cs| - 1] == tail[1]
  {
    CountSeparatorsAppend(head + middle, tail);
    CountSeparatorsAppend(head, middle);
    NoSeparators(head);
    NoSeparators(tail);
  }

  /** The part of `execute` after the matchups are known: counters, the
      newest-first sort, the page slice and the components. */
  method BuildReport(player1: User, player2: User, page: nat, both: seq<Matchup>) returns (components: seq<Component>)
    requires page >= 1
    ensures components == ReportFor(player1, player2, page, both)
  {
    var t := CountMatchups(both, player1.id, player2.id);
    var sorted := SortSequence(t.details, NewestFirst);
    var totalPages := TotalPages(|sorted|, GamesPerPage);
    var pageDetails := PageSlice(sorted, page, GamesPerPage);
    var middle := [];
    if |pageDetails| > 0 {
      var blocks := BuildBreakdown(pageDetails, player1.displayName, player2.displayName);
      middle := [BreakdownHeader] + blocks;
    }
    var buttons := PageButtons(page, totalPages, IdsFor(player1.id, player2.id));
    components := [Header(player1.displayName, player2.displayName, |both|, page, totalPages),
                   Statistics(t.p1Wins, t.p1Games, t.p2Wins, t.p2Games)]
      + middle
      + [Summary(t.p1Wins, t.p2Wins, NeitherWon(t.details)), ButtonRow(buttons)];
  }

  /** The reply `execute` gives: comparing a player with themselves is
      rejected before anything else; then no games, no matchups, or the
      report on the games both played. */
  predicate Answers(reply: Reply, player1: User, player2: User, page: nat, games: seq<GameRow>, allResults: seq<ResultRow>)
    requires page >= 1
  {
    if player1.id == player2.id then reply == SelfCompare
    else if games == [] then reply == NoGames
    else
      var both := BothPlayed(games, allResults, player1.id, player2.id);
      if both == [] then reply == NoMatchups(player1.displayName, player2.displayName)
      else reply == Report(ReportFor(player1, player2, page, both))
  }

  /** `execute`, for the page option `pageOption` (`getInteger('page') || 1`). */
  method Execute(player1: User, player2: User, pageOption: Option<nat>, games: seq<GameRow>, allResults: seq<ResultRow>)
    returns (reply: Reply)
    ensures Answers(reply, player1, player2, EffectivePage(pageOption), games, allResults)
    ensures reply == SelfCompare <==> player1.id == player2.id
  {
    var page := EffectivePage(pageOption);
    if player1.id == player2.id {
      return SelfCompare;
    }
    if |games| == 0 {
      return NoGames;
    }
    var byGame := GroupByGame(allResults);
    var both := SelectGamesWithBoth(games, allResults, byGame, player1.id, player2.id);
    if |both| == 0 {
      return NoMatchups(player1.displayName, player2.displayName);
    }
    var components := BuildReport(player1, player2, page, both);
    reply := Report(components);
  }

  /** `buttonInteraction`: ids without the `h2h-` prefix are ignored;
      otherwise `execute` runs for the page and the two player ids read
      from the id, with the display names "Player 1" and "Player 2".
      An id missing a player segment is not modelled (`None`). */
  method ButtonInteraction(customId: string, games: seq<GameRow>, allResults: seq<ResultRow>)
    returns (reply: Option<Reply>)
    ensures var t := ParseCustomId(customId);
      if "h2h-" <= customId && t.p1.Some? && t.p2.Some?
      then reply.Some? && Answers(reply.value, User(t.p1.value, "Player 1"), User(t.p2.value, "Player 2"),
                                  EffectivePage(t.page), games, allResults)
      else reply.None?
  {
    var t := ParseCustomId(customId);
    if !("h2h-" <= customId) || t.p1.None? || t.p2.None? {
      return None;
    }
    var r := Execute(User(t.p1.value, "Player 1"), User(t.p2.value, "Player 2"), t.page, games, allResults);
    reply := Some(r);
  }

  /** A button of a report leads back to a report on the same two players
      at the page the button names. */
  lemma ButtonLeadsBack(page: nat, p1: string, p2: string)
    requires '-' !in p1 && '-' !in p2 && page >= 1
    ensures var t := ParseCustomId(CustomId(page, p1, p2));
      "h2h-" <= CustomId(page, p1, p2) && t.p1 == Some(p1) && t.p2 == Some(p2) && EffectivePage(t.page) == page
  {
    CustomIdRoundTrip(page, p1, p2);
  }
}
