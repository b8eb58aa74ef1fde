/** `/history`: the guild's games, newest first, five per page, each with
    its players in finishing order, and the Previous / Next / Refresh
    buttons whose ids `history-{page}-{player id or all}` bring the reader
    back to `buttonInteraction`. The database queries are not modelled: the
    guild's games matching the filter, newest first, and the result rows
    are inputs; the `.range` of the games query and the exact count are
    computed from them. */
module History {
  import opened Wrappers
  import opened Text
  import opened Records
  import opened Sorting
  import opened Paging
  import opened Grouping
  import GameResultMessage

  const GamesPerPage := 5

  /** `(page - 1) * GAMES_PER_PAGE`. */
  function Offset(page: nat): (offset: nat)
    requires page >= 1
    ensures offset % GamesPerPage == 0 && offset / GamesPerPage == page - 1
  {
    PageStart(page, GamesPerPage)
  }

  /** `.range(from, to)`: the rows from index `from` through index `to`,
      both included, cut short at the end of the list. */
  function RangeRows<T>(s: seq<T>, from: nat, to: nat): (r: seq<T>)
    requires from <= to + 1
    ensures |r| <= to + 1 - from
    ensures |r| == if from >= |s| then 0 else if to + 1 <= |s| then to + 1 - from else |s| - from
    ensures forall k :: 0 <= k < |r| ==> from + k < |s| && r[k] == s[from + k]
  {
    if from >= |s| then []
    else if to + 1 <= |s| then s[from..to + 1]
    else s[from..]
  }

  /** The games of a page: the range `[offset, offset + 4]`, which holds at
      most five games and is the page's slice of the list. */
  function GamesOnPage(listed: seq<GameRow>, page: nat): (games: seq<GameRow>)
    requires page >= 1
  {
    RangeRows(listed, Offset(page), Offset(page) + GamesPerPage - 1)
  }

  lemma GamesOnPageAreItsSlice(listed: seq<GameRow>, page: nat)
    requires page >= 1
    ensures |GamesOnPage(listed, page)| <= GamesPerPage
    ensures GamesOnPage(listed, page) == PageSlice(listed, page, GamesPerPage)
  {
    var games := GamesOnPage(listed, page);
    var slice := PageSlice(listed, page, GamesPerPage);
    assert |games| == |slice|;
    forall k | 0 <= k < |games|
      ensures games[k] == slice[k]
    {
    }
  }

  /** Every listed game is shown on one of the `TotalPages` pages. */
  lemma EveryGameListed(listed: seq<GameRow>, k: nat)
    requires k < |listed|
    ensures var page := k / GamesPerPage + 1;
      && 1 <= page <= TotalPages(|listed|, GamesPerPage)
      && k % GamesPerPage < |GamesOnPage(listed, page)|
      && GamesOnPage(listed, page)[k % GamesPerPage] == listed[k]
  {
    EntryOnItsPage(listed, k, GamesPerPage);
    GamesOnPageAreItsSlice(listed, k / GamesPerPage + 1);
  }

  // ---------------------------------------------------------------------
  // The text of one game's results.

  /** ` ({commander})`, or nothing when the commander name is null or
      empty. The result message renders the same test differently, as
      `GameResultMessage.CommanderSuffix`. */
  function CommanderText(name: Option<string>): (s: string)
    ensures s == "" <==> !Truthy(name)
  {
    if Truthy(name) then " (" + name.value + ")" else ""
  }

  /** `{emoji} **{player}**{commanderText}`, the line without its newline. */
  function LineOf(r: ResultRow): string {
    GameResultMessage.PositionEmoji(r.position) + " **" + r.playerName + "**" + CommanderText(r.commanderName)
  }

  predicate OneLine(r: ResultRow) {
    '\n' !in r.playerName && (r.commanderName.Some? ==> '\n' !in r.commanderName.value)
  }

  /** The line of every row, in the rows' order. */
  function Lines(rows: seq<ResultRow>): (lines: seq<string>)
    ensures |lines| == |rows| && forall k :: 0 <= k < |rows| ==> lines[k] == LineOf(rows[k])
  {
    seq(|rows|, k requires 0 <= k < |rows| => LineOf(rows[k]))
  }

  /** Each line followed by a newline. */
  function Joined(lines: seq<string>): string {
    if |lines| == 0 then "" else lines[0] + "\n" + Joined(lines[1..])
  }

  /** The `resultsText` of the rows. */
  function ResultsText(rows: seq<ResultRow>): string {
    Joined(Lines(rows))
  }

  lemma {:induction false} JoinedAppend(lines: seq<string>, line: string)
    ensures Joined(lines + [line]) == Joined(lines) + line + "\n"
  {
    if |lines| == 0 {
      assert (lines + [line])[1..] == [];
    } else {
      assert (lines + [line])[1..] == lines[1..] + [line];
      JoinedAppend(lines[1..], line);
    }
  }

  /** The results text of one more row ends with that row's line and a
      newline. */
  lemma ResultsTextAppend(rows: seq<ResultRow>, r: ResultRow)
    ensures ResultsText(rows + [r]) == ResultsText(rows) + LineOf(r) + "\n"
  {
    assert Lines(rows + [r]) == Lines(rows) + [LineOf(r)];
    JoinedAppend(Lines(rows), LineOf(r));
  }

  /** The `resultsText +=` loop over the sorted rows. */
  method BuildResultsText(rows: seq<ResultRow>) returns (text: string)
    ensures text == ResultsText(rows)
  {
    ghost var lines := Lines(rows);
    text := "";
    var i := 0;
    while i < |rows|
      invariant 0 <= i <= |rows|
      invariant text == Joined(lines[..i])
    {
      JoinedAppend(lines[..i], lines[i]);
      assert lines[..i + 1] == lines[..i] + [lines[i]];
      text := text + LineOf(rows[i]) + "\n";
      i := i + 1;
    }
    assert lines[..i] == lines;
  }

  lemma LineHasNoNewline(r: ResultRow)
    requires OneLine(r)
    ensures '\n' !in LineOf(r)
  {
    var emoji := GameResultMessage.PositionEmoji(r.position);
    var commander := CommanderText(r.commanderName);
    assert '\n' !in emoji;
    assert '\n' !in commander;
    var a := emoji + " **";
    var b := a + r.playerName;
    var c := b + "**";
    assert '\n' !in a;
    assert '\n' !in b;
    assert '\n' !in c;
    assert LineOf(r) == c + commander;
  }

  /** Splitting joined lines on newlines gives the lines back, then the
      empty text after the last newline. */
  lemma {:induction false} SplitJoined(lines: seq<string>)
    requires forall k :: 0 <= k < |lines| ==> '\n' !in lines[k]
    ensures Split(Joined(lines), '\n') == lines + [""]
  {
    if |lines| > 0 {
      SplitJoined(lines[1..]);
      assert Joined(lines) == lines[0] + ['\n'] + Joined(lines[1..]);
      SplitAtFirst(lines[0], '\n', Joined(lines[1..]));
      assert lines == [lines[0]] + lines[1..];
    }
  }

  /** Splitting the text on newlines gives back one line per row, in the
      rows' order, when no name holds a newline. */
  lemma ResultsTextLines(rows: seq<ResultRow>)
    requires forall k :: 0 <= k < |rows| ==> OneLine(rows[k])
    ensures Split(ResultsText(rows), '\n') == Lines(rows) + [""]
  {
    var lines := Lines(rows);
    forall k | 0 <= k < |lines|
      ensures '\n' !in lines[k]
    {
      LineHasNoNewline(rows[k]);
    }
    SplitJoined(lines);
  }

  // ---------------------------------------------------------------------
  // The components.

  datatype Component =
    | Header(filterName: Option<string>, page: nat, totalPages: nat, totalGames: nat)
    | Notice(text: string)
    | GameHeader(gameId: string, createdAt: int, playerCount: nat)
    | Results(text: string)
    | Separator
    | ButtonRow(buttons: seq<Button>)

  const NoGamesTracked := "📚 **No Games Found**\n\nNo games have been tracked in this server yet. Start playing and use `/register` to track your games!"

  /** The reply of `execute` when the page holds no game. */
  function NoGamesText(filterName: Option<string>, page: nat): string {
    if filterName.Some? then "📚 **No Games Found**\n\nNo games found for **" + filterName.value + "** on page " + NatToString(page) + "."
    else NoGamesTracked
  }

  /** The reply of `buttonInteraction` when the page holds no game. */
  function NoGamesForButtonText(filtered: bool, page: nat): string {
    if filtered then "📚 **No Games Found**\n\nNo games found for this player on page " + NatToString(page) + "."
    else NoGamesTracked
  }

  function NoResultsText(gameId: string): string {
    "📚 **No Results Found**\n\nNo results found for game #" + gameId + "."
  }

  /** The components of the `k`-th of `n` games: its header and its
      results sorted by position, then a separator unless it is the last.
      With `skipEmpty` (the button path) a game without results is a
      single notice instead, with no separator. */
  function GameBlock(g: GameRow, results: seq<ResultRow>, k: nat, n: nat, skipEmpty: bool): seq<Component> {
    if skipEmpty && |results| == 0 then [Notice(NoResultsText(g.id))]
    else
      [GameHeader(g.id, g.createdAt, |results|), Results(ResultsText(SortBy(results, PosKey)))]
      + (if k + 1 < n then [Separator] else [])
  }

  /** The blocks of the first `|games|` of `n` games. */
  function GameBlocks(games: seq<GameRow>, allResults: seq<ResultRow>, n: nat, skipEmpty: bool): seq<Component> {
    if |games| == 0 then []
    else
      var g := games[|games| - 1];
      GameBlocks(games[..|games| - 1], allResults, n, skipEmpty)
      + GameBlock(g, ResultsOf(allResults, g.id), |games| - 1, n, skipEmpty)
  }

  lemma GameBlocksStep(games: seq<GameRow>, allResults: seq<ResultRow>, n: nat, skipEmpty: bool, i: nat)
    requires i < |games|
    ensures GameBlocks(games[..i + 1], allResults, n, skipEmpty)
      == GameBlocks(games[..i], allResults, n, skipEmpty) + GameBlock(games[i], ResultsOf(allResults, games[i].id), i, n, skipEmpty)
  {
    assert games[..i + 1][..i] == games[..i];
    assert games[..i + 1][i] == games[i];
  }

  /** One iteration of `games.forEach`: sort the game's bucket in place,
      accumulate its text, push the components. */
  method RenderGame(g: GameRow, results: seq<ResultRow>, k: nat, n: nat, skipEmpty: bool) returns (block: seq<Component>)
    ensures block == GameBlock(g, results, k, n, skipEmpty)
  {
    if skipEmpty && |results| == 0 {
      return [Notice(NoResultsText(g.id))];
    }
    var sorted := SortSequence(results, PosKey);
    var text := BuildResultsText(sorted);
    block := [GameHeader(g.id, g.createdAt, |results|), Results(text)];
    if k + 1 < n {
      block := block + [Separator];
    }
  }

  method RenderGames(games: seq<GameRow>, allResults: seq<ResultRow>, byGame: map<string, seq<ResultRow>>, skipEmpty: bool)
    returns (cs: seq<Component>)
    requires forall g :: ResultsFor(byGame, g) == ResultsOf(allResults, g)
    ensures cs == GameBlocks(games, allResults, |games|, skipEmpty)
  {
    cs := [];
    var i := 0;
    while i < |games|
      invariant 0 <= i <= |games|
      invariant cs == GameBlocks(games[..i], allResults, |games|, skipEmpty)
    {
      GameBlocksStep(games, allResults, |games|, skipEmpty, i);
      var block := RenderGame(games[i], ResultsFor(byGame, games[i].id), i, |games|, skipEmpty);
      cs := cs + block;
      i := i + 1;
    }
    assert games[..i] == games;
  }

  function SeparatorBit(c: Component): nat {
    if c == Separator then 1 else 0
  }

  /** The separators among the page's components; `/h2h` renders with its
      own builder, counted in `HeadToHead`. */
  function CountSeparators(cs: seq<Component>): nat {
    if |cs| == 0 then 0 else CountSeparators(cs[..|cs| - 1]) + SeparatorBit(cs[|cs| - 1])
  }

  lemma {:induction false} CountSeparatorsAppend(a: seq<Component>, b: seq<Component>)
    ensures CountSeparators(a + b) == CountSeparators(a) + CountSeparators(b)
    decreases |b|
  {
    if |b| == 0 {
      assert a + b == a;
    } else {
      CountSeparatorsAppend(a, b[..|b| - 1]);
      assert (a + b)[..|a + b| - 1] == a + b[..|b| - 1];
      assert (a + b)[|a + b| - 1] == b[|b| - 1];
    }
  }

  lemma {:induction false} NoSeparatorIn(cs: seq<Component>)
    requires forall k :: 0 <= k < |cs| ==> cs[k] != Separator
    ensures CountSeparators(cs) == 0
  {
    if |cs| > 0 {
      NoSeparatorIn(cs[..|cs| - 1]);
    }
  }

  lemma BlockSeparators(g: GameRow, results: seq<ResultRow>, k: nat, n: nat, skipEmpty: bool)
    ensures var block := GameBlock(g, results, k, n, skipEmpty);
      CountSeparators(block) == (if (skipEmpty && |results| == 0) || k + 1 >= n then 0 else 1)
  {
    var block := GameBlock(g, results, k, n, skipEmpty);
    if !(skipEmpty && |results| == 0) {
      var two := [GameHeader(g.id, g.createdAt, |results|), Results(ResultsText(SortBy(results, PosKey)))];
      NoSeparatorIn(two);
      CountSeparatorsAppend(two, if k + 1 < n then [Separator] else []);
      if k + 1 < n {
        assert [Separator][..0] == [];
      }
    } else {
      NoSeparatorIn(block);
    }
  }

  /** In `execute`, the first `m` of `n` games take three components each
      but the last, which has no separator. */
  lemma {:induction false} ExecuteBlocksShape(games: seq<GameRow>, allResults: seq<ResultRow>, n: nat)
    requires 1 <= |games| <= n
    ensures var last := if |games| == n then 1 else 0;
      && |GameBlocks(games, allResults, n, false)| == 3 * |games| - last
      && CountSeparators(GameBlocks(games, allResults, n, false)) == |games| - last
  {
    var m := |games|;
    var g := games[m - 1];
    if m > 1 {
      ExecuteBlocksShape(games[..m - 1], allResults, n);
    }
    BlockSeparators(g, ResultsOf(allResults, g.id), m - 1, n, false);
    CountSeparatorsAppend(GameBlocks(games[..m - 1], allResults, n, false), GameBlock(g, ResultsOf(allResults, g.id), m - 1, n, false));
  }

  /** The games of the list that have results. */
  function WithResults(games: seq<GameRow>, allResults: seq<ResultRow>): (c: nat)
    ensures c <= |games|
  {
    if |games| == 0 then 0
    else WithResults(games[..|games| - 1], allResults) + (if ResultsOf(allResults, games[|games| - 1].id) != [] then 1 else 0)
  }

  /** In `buttonInteraction`, a separator follows exactly the games that
      have results, except the last game of the page. */
  lemma {:induction false} ButtonBlocksSeparators(games: seq<GameRow>, allResults: seq<ResultRow>, n: nat)
    requires |games| <= n
    ensures var m := |games|;
      CountSeparators(GameBlocks(games, allResults, n, true))
      == WithResults(games, allResults) - (if m == n && m > 0 && ResultsOf(allResults, games[m - 1].id) != [] then 1 else 0)
  {
    var m := |games|;
    if m > 0 {
      var g := games[m - 1];
      ButtonBlocksSeparators(games[..m - 1], allResults, n);
      BlockSeparators(g, ResultsOf(allResults, g.id), m - 1, n, true);
      CountSeparatorsAppend(GameBlocks(games[..m - 1], allResults, n, true), GameBlock(g, ResultsOf(allResults, g.id), m - 1, n, true));
    }
  }

  predicate AllHaveResults(games: seq<GameRow>, allResults: seq<ResultRow>) {
    forall k :: 0 <= k < |games| ==> ResultsOf(allResults, games[k].id) != []
  }

  /** When every game has results, both paths render the games alike. */
  lemma {:induction false} SameBlocksWhenAllHaveResults(games: seq<GameRow>, allResults: seq<ResultRow>, n: nat)
    requires AllHaveResults(games, allResults)
    ensures GameBlocks(games, allResults, n, true) == GameBlocks(games, allResults, n, false)
  {
    if |games| > 0 {
      var init := games[..|games| - 1];
      assert AllHaveResults(init, allResults) by {
        forall k | 0 <= k < |init|
          ensures ResultsOf(allResults, init[k].id) != []
        {
          assert init[k] == games[k];
        }
      }
      SameBlocksWhenAllHaveResults(init, allResults, n);
    }
  }

  // ---------------------------------------------------------------------
  // Button ids.

  /** `playerFilter?.id || 'all'` and `playerFilter || 'all'`. */
  function FilterSegment(filter: Option<string>): string {
    if Truthy(filter) then filter.value else "all"
  }

  /** `history-{page}-{player id or all}`. */
  function CustomId(page: nat, filter: Option<string>): string {
    "history-" + NatToString(page) + "-" + FilterSegment(filter)
  }

  function IdsFor(filter: Option<string>): nat -> string {
    (page: nat) => CustomId(page, filter)
  }

  /** `[, page, playerId] = customId.split('-')`, `parseInt(page)` and
      `playerId === 'all' ? null : playerId`. */
  datatype Target = Target(page: Option<nat>, filter: Option<string>)

  function ParseCustomId(customId: string): Target {
    var parts := Split(customId, '-');
    var playerId := Part(parts, 2);
    Target(if 1 < |parts| then ParseNat(parts[1]) else None,
           if playerId == Some("all") then None else playerId)
  }

  /** A button id gives back its page, and its player id or no filter for
      `all`, when the player id holds no '-' and is not `all` itself. */
  lemma CustomIdRoundTrip(page: nat, filter: Option<string>)
    requires filter.Some? ==> '-' !in filter.value && filter.value != "all"
    ensures ParseCustomId(CustomId(page, filter)) == Target(Some(page), if Truthy(filter) then filter else None)
  {
    var d := NatToString(page);
    var segment := FilterSegment(filter);
    DigitsHaveNoSeparator(d, '-');
    assert '-' !in segment;
    assert CustomId(page, filter) == "history" + ['-'] + (d + ['-'] + segment);
    SplitAtFirst("history", '-', d + ['-'] + segment);
    SplitAtFirst(d, '-', segment);
    SplitWithoutSeparator(segment, '-');
    ParseNatToString(page);
  }

  // ---------------------------------------------------------------------
  // The two entry points.

  /** A page with games: the header, the games' components, the buttons. */
  function Listing(header: Component, blocks: seq<Component>, buttons: seq<Button>): (cs: seq<Component>)
    ensures |cs| == |blocks| + 2 && cs[0] == header && cs[|cs| - 1] == ButtonRow(buttons)
    ensures cs[1..] == blocks + [ButtonRow(buttons)]
  {
    [header] + blocks + [ButtonRow(buttons)]
  }

  lemma ListingSeparators(header: Component, blocks: seq<Component>, buttons: seq<Button>)
    requires header != Separator
    ensures CountSeparators(Listing(header, blocks, buttons)) == CountSeparators(blocks)
  {
    NoSeparatorIn([header]);
    NoSeparatorIn([ButtonRow(buttons)]);
    CountSeparatorsAppend([header], blocks);
    CountSeparatorsAppend([header] + blocks, [ButtonRow(buttons)]);
  }

  /** A listing of `m` game blocks and the page buttons: three components
      per game and two more, a separator between games, and the Refresh
      button of the same page and filter last. */
  lemma ListingShape(header: Component, blocks: seq<Component>, buttons: seq<Button>, m: nat,
                     page: nat, totalPages: nat, filterId: Option<string>, cs: seq<Component>)
    requires header.Header? && page >= 1 && m >= 1
    requires |blocks| == 3 * m - 1 && CountSeparators(blocks) == m - 1
    requires buttons == PageButtons(page, totalPages, IdsFor(filterId))
    requires cs == Listing(header, blocks, buttons)
    ensures |cs| == 3 * m + 1 && CountSeparators(cs) == m - 1 && cs[0] == header
    ensures cs[|cs| - 1] == ButtonRow(buttons)
    ensures buttons[|buttons| - 1] == Button(CustomId(page, filterId), RefreshCaption, Primary)
  {
    ListingSeparators(header, blocks, buttons);
  }

  /** What `execute` shows for the page option `pageOption`, the optional
      player filter, the guild's games matching the filter newest first,
      and the results. */
  function ExecuteView(pageOption: Option<nat>, filter: Option<User>, listed: seq<GameRow>, allResults: seq<ResultRow>)
    : seq<Component>
  {
    var page := EffectivePage(pageOption);
    var games := GamesOnPage(listed, page);
    var filterName := if filter.Some? then Some(filter.value.displayName) else None;
    if |games| == 0 then [Notice(NoGamesText(filterName, page))]
    else
      var totalPages := TotalPages(|listed|, GamesPerPage);
      Listing(Header(filterName, page, totalPages, |listed|),
              GameBlocks(games, allResults, |games|, false),
              PageButtons(page, totalPages, IdsFor(if filter.Some? then Some(filter.value.id) else None)))
  }

  /** What `buttonInteraction` shows for a page and a filter read from a
      button id: the header leaves out the player's name and a game
      without results is a single notice. */
  function ButtonView(page: nat, filter: Option<string>, listed: seq<GameRow>, allResults: seq<ResultRow>)
    : seq<Component>
    requires page >= 1
  {
    var games := GamesOnPage(listed, page);
    if |games| == 0 then [Notice(NoGamesForButtonText(Truthy(filter), page))]
    else
      var totalPages := TotalPages(|listed|, GamesPerPage);
      Listing(Header(None, page, totalPages, |listed|),
              GameBlocks(games, allResults, |games|, true),
              PageButtons(page, totalPages, IdsFor(filter)))
  }

  method Execute(pageOption: Option<nat>, filter: Option<User>, listed: seq<GameRow>, allResults: seq<ResultRow>)
    returns (components: seq<Component>)
    ensures components == ExecuteView(pageOption, filter, listed, allResults)
  {
    var page := EffectivePage(pageOption);
    var games := GamesOnPage(listed, page);
    var filterName := if filter.Some? then Some(filter.value.displayName) else None;
    if |games| == 0 {
      return [Notice(NoGamesText(filterName, page))];
    }
    var byGame := GroupByGame(allResults);
    var blocks := RenderGames(games, allResults, byGame, false);
    var totalPages := TotalPages(|listed|, GamesPerPage);
    var filterId := if filter.Some? then Some(filter.value.id) else None;
    components := Listing(Header(filterName, page, totalPages, |listed|), blocks, PageButtons(page, totalPages, IdsFor(filterId)));
  }

  /** `buttonInteraction`: ids without the `history-` prefix are ignored;
      an id whose page is not a positive number is not modelled (`None`).
      `listed` is the guild's games matching the filter read from the id. */
  method ButtonInteraction(customId: string, listed: seq<GameRow>, allResults: seq<ResultRow>)
    returns (components: Option<seq<Component>>)
    ensures var t := ParseCustomId(customId);
      if "history-" <= customId && t.page.Some? && t.page.value >= 1
      then components == Some(ButtonView(t.page.value, t.filter, listed, allResults))
      else components.None?
  {
    if !("history-" <= customId) {
      return None;
    }
    var t := ParseCustomId(customId);
    if t.page.None? || t.page.value == 0 {
      return None;
    }
    var page := t.page.value;
    var games := GamesOnPage(listed, page);
    if |games| == 0 {
      return Some([Notice(NoGamesForButtonText(Truthy(t.filter), page))]);
    }
    var byGame := GroupByGame(allResults);
    var blocks := RenderGames(games, allResults, byGame, true);
    var totalPages := TotalPages(|listed|, GamesPerPage);
    components := Some(Listing(Header(None, page, totalPages, |listed|), blocks, PageButtons(page, totalPages, IdsFor(t.filter))));
  }

  /** `execute` with games on the page shows the header, three components
      per game but the last, which has no separator, and the button row. */
  lemma ExecuteShape(pageOption: Option<nat>, filter: Option<User>, listed: seq<GameRow>, allResults: seq<ResultRow>,
                     page: nat, n: nat, cs: seq<Component>)
    requires page == EffectivePage(pageOption) && n == |GamesOnPage(listed, page)| && n > 0
    requires cs == ExecuteView(pageOption, filter, listed, allResults)
    ensures 1 <= n <= GamesPerPage
    ensures |cs| == 3 * n + 1 && CountSeparators(cs) == n - 1
    ensures cs[0].Header? && cs[0].page == page && cs[0].totalGames == |listed|
    ensures cs[|cs| - 1].ButtonRow?
  {
    var games := GamesOnPage(listed, page);
    var filterName := if filter.Some? then Some(filter.value.displayName) else None;
    var filterId := if filter.Some? then Some(filter.value.id) else None;
    var totalPages := TotalPages(|listed|, GamesPerPage);
    var header := Header(filterName, page, totalPages, |listed|);
    var blocks := GameBlocks(games, allResults, n, false);
    var buttons := PageButtons(page, totalPages, IdsFor(filterId));
    assert cs == Listing(header, blocks, buttons);
    GamesOnPageAreItsSlice(listed, page);
    ExecuteBlocksShape(games, allResults, n);
    ListingShape(header, blocks, buttons, n, page, totalPages, filterId, cs);
  }

  /** The last button `execute` shows refreshes the same page with the
      same player filter. */
  lemma ExecuteRefresh(pageOption: Option<nat>, filter: Option<User>, listed: seq<GameRow>, allResults: seq<ResultRow>,
                       page: nat, filterId: Option<string>, cs: seq<Component>)
    requires page == EffectivePage(pageOption) && GamesOnPage(listed, page) != []
    requires filterId == if filter.Some? then Some(filter.value.id) else None
    requires cs == ExecuteView(pageOption, filter, listed, allResults)
    ensures |cs| > 0 && cs[|cs| - 1].ButtonRow? && cs[|cs| - 1].buttons != []
    ensures cs[|cs| - 1].buttons[|cs[|cs| - 1].buttons| - 1] == Button(CustomId(page, filterId), RefreshCaption, Primary)
  {
    var filterName := if filter.Some? then Some(filter.value.displayName) else None;
    var totalPages := TotalPages(|listed|, GamesPerPage);
    var buttons := PageButtons(page, totalPages, IdsFor(filterId));
    var blocks := GameBlocks(GamesOnPage(listed, page), allResults, |GamesOnPage(listed, page)|, false);
    assert cs == Listing(Header(filterName, page, totalPages, |listed|), blocks, buttons);
    assert IdsFor(filterId)(page) == CustomId(page, filterId);
  }

  /** The Refresh button of an unfiltered page leads to the same view, as
      long as every game on it has results. */
  lemma RefreshShowsSamePage(page: nat, listed: seq<GameRow>, allResults: seq<ResultRow>)
    requires page >= 1
    requires AllHaveResults(GamesOnPage(listed, page), allResults)
    ensures ParseCustomId(CustomId(page, None)) == Target(Some(page), None)
    ensures ButtonView(page, None, listed, allResults) == ExecuteView(Some(page), None, listed, allResults)
  {
    CustomIdRoundTrip(page, None);
    var games := GamesOnPage(listed, page);
    SameBlocksWhenAllHaveResults(games, allResults, |games|);
  }

  /** With a player filter, a button of the page leads to the page it
      names for the same player, and shows what `execute` shows but for
      the player's name in the header. */
  lemma FilteredButtonShowsSamePage(page: nat, player: User, listed: seq<GameRow>, allResults: seq<ResultRow>,
                                    byButton: seq<Component>, byCommand: seq<Component>)
    requires page >= 1 && player.id != "" && player.id != "all" && '-' !in player.id
    requires GamesOnPage(listed, page) != []
    requires AllHaveResults(GamesOnPage(listed, page), allResults)
    requires byButton == ButtonView(page, Some(player.id), listed, allResults)
    requires byCommand == ExecuteView(Some(page), Some(player), listed, allResults)
    ensures ParseCustomId(CustomId(page, Some(player.id))) == Target(Some(page), Some(player.id))
    ensures byButton[1..] == byCommand[1..]
    ensures byButton[0] == byCommand[0].(filterName := None)
  {
    CustomIdRoundTrip(page, Some(player.id));
    var games := GamesOnPage(listed, page);
    SameBlocksWhenAllHaveResults(games, allResults, |games|);
  }
}
