# Magic game tracker bot, modelled in Dafny

This project models the core of a Discord bot that tracks Commander games
of Magic: The Gathering, and of the small activity server that keeps a
live life-total table. The model covers these parts:

- **`/register`** (`Register`): five player slots. Each slot holds a
  Discord user or a guest name, plus a commander. The slots are checked
  in order. A result row without a position is created for each player,
  and each player gets a position menu. A choice in a menu stores that
  player's position. Once every row of the game has a position, the game
  is registered and the result message is posted.
- **The result message** (`GameResultMessage`): the title, then one line
  per result in ascending position, with a medal emoji and an optional
  commander suffix.
- **`/history`** (`History`): the guild's games, newest first, five per
  page. Each game shows its players in finishing order. Previous, Next
  and Refresh buttons carry ids of the form
  `history-{page}-{player id or all}`, and the button handler parses them
  back.
- **`/h2h`** (`HeadToHead`): the games two players played together, their
  wins and game counts, a newest-first breakdown with three games per
  page, a summary, and `h2h-{page}-{p1}-{p2}` buttons.
- **`/stats`** (`Stats`): the per-player and per-player-and-commander
  aggregations. Each gives games, wins and positions, with the entries
  in first-seen order.
- **The activity server** (`ActivityServer`): the in-memory game. It has
  a capacity, a starting hp and the ordered players. The `join`, `leave`,
  `setHP` and `config` handlers change it in place.

Shared modules:

- `Sorting`: the engine's stable sort with a numeric comparator. It is
  specified as an insertion sort on sequences and carried out in place on
  arrays.
- `Paging`: page count, page slice and the button row.
- `Grouping`: the `resultsByGame` loop.
- `Text`: decimal printing, `parseInt` and `split`.
- `Records`: the database rows.

The database is not modelled. The rows a query would return are inputs,
and an update is a function on a sequence of rows. `Date.now()` and
`JSON.parse` are parameters. Each socket handler returns whether it emits
`update`; the emit itself is not modelled.

Where JavaScript semantics matter, they are written out:

- The comparator `a.player_position - b.player_position` treats a null
  position as 0 (`Records.PosKey`).
- `x || 1` replaces a missing page, 0 or `NaN` with 1.
- Truthiness applies to strings: null and `""` are falsy.
- `split('-')` keeps empty pieces, and a missing destructured piece is
  `undefined` (`Text.Part`).

## Model

| member | source | states |
|---|---|---|
| Text.ParseNatToString | commands/gameTracking/history.js:240 | `parseInt` of a page number printed in decimal gives the number back |
| Text.SplitAtFirst | commands/gameTracking/history.js:239 | splitting `a-b` on '-' when `a` has no '-' gives `a` followed by the pieces of `b` |
| Text.SplitWithoutSeparator | commands/gameTracking/register.js:217 | a string without '-' splits into itself |
| Paging.TotalPages | commands/gameTracking/history.js:133 | `Math.ceil(n / perPage)`: the pages hold all `n` entries, and without the last page they would not |
| Paging.EffectivePage | commands/gameTracking/history.js:36 | a missing, zero or `NaN` page becomes 1; a positive page is kept |
| Paging.PageSlice | commands/gameTracking/h2h.js:187-189 | the slice of a page has at most `perPage` entries, its length is the one `slice` gives, and its entries are those of the list from `(page-1)*perPage` on |
| Paging.EntryOnItsPage | commands/gameTracking/h2h.js:186-189 | every entry appears on page `k / perPage + 1`, which is one of the `TotalPages` pages, at offset `k % perPage` |
| Paging.PageButtons | commands/gameTracking/h2h.js:267-291 | Previous appears iff `page > 1` and Next iff `page < totalPages`, with ids for `page - 1` and `page + 1`; Previous comes first, Next just before Refresh, and Refresh, for `page`, is always last; the row has exactly one button per condition that holds plus Refresh |
| Sorting.SortBySorted | utilities/GameResultMessageBuilder.js:14 | the sort leaves the rows in ascending key order |
| Sorting.SortByPermutation | utilities/GameResultMessageBuilder.js:14 | the sort neither loses nor adds a row |
| Sorting.InsertByAt | utilities/GameResultMessageBuilder.js:14 | a stable insertion places the new element right after the last element whose key is not larger, ahead of every larger key after it |
| Sorting.ShiftLarger | utilities/GameResultMessageBuilder.js:14 | the inner loop shifts the larger keys one place right, leaves the rest alone, and returns the gap where the insertion belongs |
| Sorting.InsertInPlace | utilities/GameResultMessageBuilder.js:14 | one insertion step of the in-place sort puts `a[i]` after the sorted prefix's entries with smaller or equal keys and leaves the rest of the array alone |
| Sorting.SortInPlace | utilities/GameResultMessageBuilder.js:14 | sorting the array in place leaves in it the stable sort of its old contents |
| Sorting.SortSequence | commands/gameTracking/history.js:166 | the rows of a fetched list come back stably sorted by the key |
| Grouping.ResultsOf | commands/gameTracking/history.js:147 | a game's rows are rows of the input with that game id, no more of them than the input has |
| Grouping.GroupByGame | commands/gameTracking/history.js:107-113 | a bucket exists exactly for the games that have rows, and each bucket holds its game's rows in input order |
| Grouping.EveryRowInItsBucket | commands/gameTracking/history.js:107-113 | no row is lost: every row is in the bucket of its own game |
| ActivityServer.FindIndex | activity/server.js:39 | `find` gives the first player with the id, or nothing exactly when nobody has it |
| ActivityServer.ResetHP | activity/server.js:51 | the reset gives every player the same hp and changes nothing else |
| ActivityServer.WithoutRemoves | activity/server.js:33 | `filter` brings in nobody, keeps every other player, and leaves nobody with the id |
| ActivityServer.WithoutAbsent | activity/server.js:33 | leaving with an unknown id changes nothing |
| ActivityServer.WithoutIdempotent | activity/server.js:33 | leaving twice is leaving once |
| ActivityServer.WithoutAt | activity/server.js:33 | with unique ids, leave removes exactly the one entry with the id and keeps the order of the others |
| ActivityServer.WithoutUnique | activity/server.js:33 | leave keeps the ids unique |
| ActivityServer.AppendUnique | activity/server.js:25-26 | a join that checks the id keeps the ids unique |
| ActivityServer.ResetKeepsIds | activity/server.js:51 | the config reset keeps the ids, their order and their uniqueness |
| ActivityServer.GameSession.constructor | activity/server.js:16-20 | a new game has capacity 4, starting hp 20 and no players |
| ActivityServer.GameSession.Join | activity/server.js:24-29 | appends `{id, username, startingHP}` and emits iff the game has room and the id is new; otherwise nothing changes; ids stay unique and a join never overfills the game |
| ActivityServer.GameSession.Leave | activity/server.js:32-35 | removes every player with the id, keeps the others in order, always emits; an unknown id changes nothing |
| ActivityServer.GameSession.SetHP | activity/server.js:38-44 | only the hp of the player with the id changes; it emits iff such a player exists; the ids and their order stay |
| ActivityServer.GameSession.Config | activity/server.js:47-53 | takes the capacity only within 2..6 and the hp only if positive, then resets every player's hp to the starting hp; always emits |
| HeadToHead.FirstResult | commands/gameTracking/h2h.js:145-146 | `find` gives a row of the player exactly when the player has one in the game |
| HeadToHead.FirstResultIsFirst | commands/gameTracking/h2h.js:145-146 | the row `find` gives is the player's first row in the game |
| HeadToHead.SelectGamesWithBoth | commands/gameTracking/h2h.js:110-121 | the loop keeps, in order, the games whose results include both players |
| HeadToHead.BothPlayedExactly | commands/gameTracking/h2h.js:110-121 | a game is selected iff both players have a result in it |
| HeadToHead.TallyOf | commands/gameTracking/h2h.js:144-174 | both game counters equal the number of details; wins never exceed games |
| HeadToHead.CountMatchups | commands/gameTracking/h2h.js:144-174 | the counting loop computes the tally of the selected games |
| HeadToHead.EverySelectedGameCounted | commands/gameTracking/h2h.js:148 | on selected games both results are always found, so every game is counted and described |
| HeadToHead.ReportCounts | commands/gameTracking/h2h.js:158-159 | both game counters equal the number of games played together, and each win count is at most that |
| HeadToHead.BreakdownShape | commands/gameTracking/h2h.js:219-252 | `n` games give `2n - 1` components, with a separator after every game but the last |
| HeadToHead.BuildBreakdown | commands/gameTracking/h2h.js:219-252 | the `forEach` loop builds the game-by-game blocks with their separators |
| HeadToHead.ReportShape | commands/gameTracking/h2h.js:186-296 | a page shows at most 3 games; the report has `4 + 2k` components with `k - 1` separators, and the button row comes last |
| HeadToHead.BuildReport | commands/gameTracking/h2h.js:176-296 | sorts the details newest first, slices the page and builds the header, statistics, breakdown, summary and buttons |
| HeadToHead.Execute | commands/gameTracking/h2h.js:42-132 | comparing a player with themselves is rejected first; then the reply is no games, no matchups, or the report on the games both played |
| HeadToHead.ButtonInteraction | commands/gameTracking/h2h.js:308-337 | an id without the `h2h-` prefix is ignored; otherwise `execute` runs for the parsed page and players, named "Player 1" and "Player 2" |
| HeadToHead.CustomIdRoundTrip | commands/gameTracking/h2h.js:270 | `h2h-{page}-{p1}-{p2}` parses back to the page and both players when the ids have no '-' |
| HeadToHead.ButtonLeadsBack | commands/gameTracking/h2h.js:315-316 | each button of a report leads back to the same two players at the page it names |
| HeadToHead.OthersWonAsWrittenNegative | commands/gameTracking/h2h.js:260 | as written, one game where both players are recorded first makes the summary report -1 games won by others |
| HeadToHead.NeitherWon | commands/gameTracking/h2h.js:260 | the corrected count of games neither player won is at most the number of games |
| HeadToHead.NeitherWonCount | commands/gameTracking/h2h.js:260 | the corrected count is the written count plus the games both players are recorded as winning |
| Stats.RowsWithKey | commands/gameTracking/stats.js:31-48 | the rows of an entry are input rows with that key |
| Stats.RowsWithKeyComplete | commands/gameTracking/stats.js:31-48 | every input row with the key is among the entry's rows |
| Stats.RowsWithKeyCount | commands/gameTracking/stats.js:31-48 | an entry holds exactly as many rows as there are input rows with its key, so its `games` is that number |
| Stats.RowsWithKeyFirst | commands/gameTracking/stats.js:32-38 | an entry's rows are non-empty iff its key has a first row, and they start with that row, so the entry's names come from the first row seen for the key |
| Stats.KeysInOrder | commands/gameTracking/stats.js:31-48 | the entries are listed once each, exactly for the keys that have rows |
| Stats.FirstSeen | commands/gameTracking/stats.js:32-39 | the index of a key's first row: that row has the key and no earlier row does |
| Stats.KeyListedIffSeen | commands/gameTracking/stats.js:31-48 | a key is listed iff it has a first row |
| Stats.KeysInFirstSeenOrder | commands/gameTracking/stats.js:31-48 | the keys are listed in the order of their first rows |
| Stats.PositionsIn | commands/gameTracking/stats.js:42 | an entry's positions are its rows' positions, in input order |
| Stats.Aggregate | commands/gameTracking/stats.js:31-48 | the `reduce` creates an entry per key and makes it the name of its first row, the number of rows, the wins and the positions |
| Stats.WinsAtMostGames | commands/gameTracking/stats.js:43-45 | an entry never has more wins than games |
| Stats.WinsAreFirstPlaces | commands/gameTracking/stats.js:43-45 | an entry's wins are the number of its recorded positions equal to 1 |
| Stats.GamesAddUp | commands/gameTracking/stats.js:41 | every row is counted in exactly one entry, so the games add up to the number of rows |
| Stats.CommanderKeySeparates | commands/gameTracking/stats.js:69 | with player ids free of '-', two rows share a commander entry iff they share player and commander |
| Stats.PlayerStats | commands/gameTracking/stats.js:31-48 | per-player entries in first-seen order, each the summary of the player's rows |
| Stats.CommanderStats | commands/gameTracking/stats.js:68-87 | per-player-and-commander entries in first-seen order, each the summary of its rows |
| History.Offset | commands/gameTracking/history.js:40 | the offset of a page is a multiple of 5, the page's index times 5 |
| History.RangeRows | commands/gameTracking/history.js:48 | `.range(from, to)` returns the rows of the list from `from` through `to`: exactly `to - from + 1` of them when the list reaches `to`, the rest of the list when it ends sooner, none when `from` is past the end |
| History.GamesOnPageAreItsSlice | commands/gameTracking/history.js:40-48 | the range `[offset, offset + 4]` holds at most 5 games and is the page's slice of the list |
| History.EveryGameListed | commands/gameTracking/history.js:40-48 | every game of the list is shown on one of the `TotalPages` pages |
| History.CommanderText | commands/gameTracking/history.js:174 | the commander text is empty exactly when the commander name is null or empty |
| History.ResultsTextAppend | commands/gameTracking/history.js:175 | the results text of one more row ends with that row's line and a newline |
| History.BuildResultsText | commands/gameTracking/history.js:167-176 | the `+=` loop builds the results text of the sorted rows |
| History.LineHasNoNewline | commands/gameTracking/history.js:175 | a line has no newline of its own when the names have none |
| History.SplitJoined | commands/gameTracking/history.js:167-176 | splitting newline-terminated lines that hold no newline gives the lines back, then an empty text |
| History.ResultsTextLines | commands/gameTracking/history.js:169-176 | splitting the results text on newlines gives back one line per row, in order |
| History.RenderGame | commands/gameTracking/history.js:146-187 | one game gives its header, its results sorted by position and a separator unless last; in the button path, a game without results gives only the notice |
| History.RenderGames | commands/gameTracking/history.js:146-187 | the `forEach` loop builds the blocks of all the games on the page |
| History.ExecuteBlocksShape | commands/gameTracking/history.js:184-186 | in `execute`, `m` games give `3m - 1` components with `m - 1` separators |
| History.ButtonBlocksSeparators | commands/gameTracking/history.js:356-360 | in the button path, a separator follows exactly the games with results, except the last game |
| History.SameBlocksWhenAllHaveResults | commands/gameTracking/history.js:356-400 | when every game has results, both paths render the games alike |
| History.CustomIdRoundTrip | commands/gameTracking/history.js:195-241 | `history-{page}-{id or all}` parses back to the page, and to the player or no filter |
| History.Listing | commands/gameTracking/history.js:138-221 | a page with games is the header, then the games, then the button row |
| History.ExecuteShape | commands/gameTracking/history.js:133-221 | a page of `n` games (at most five) has `3n + 1` components and `n - 1` separators, with the header of that page and the total game count first and the button row last |
| History.ExecuteRefresh | commands/gameTracking/history.js:211-216 | the last button of a listed page refreshes the same page with the same player filter |
| History.Execute | commands/gameTracking/history.js:30-227 | `execute` computes the view: the no-games notice, or the header, games and buttons |
| History.ButtonInteraction | commands/gameTracking/history.js:233-441 | an id without `history-` or without a positive page gets no reply; otherwise the button view of the parsed page and filter |
| History.RefreshShowsSamePage | commands/gameTracking/history.js:211-216 | Refresh on an unfiltered page shows what `execute` showed, when every game has results |
| History.FilteredButtonShowsSamePage | commands/gameTracking/history.js:347-349 | with a filter, the button shows the same page for the same player; only the player's name in the header is dropped |
| GameResultMessage.PositionEmojiIsMedal | utilities/GameResultMessageBuilder.js:23 | 🥇, 🥈 and 🥉 exactly for positions 1, 2 and 3, and 🎮 for every other position |
| GameResultMessage.CommanderSuffix | utilities/GameResultMessageBuilder.js:24 | the suffix is empty exactly when the commander name is null or empty |
| GameResultMessage.ResultLines | utilities/GameResultMessageBuilder.js:22-30 | one line per result, in order |
| GameResultMessage.ResultLineShape | utilities/GameResultMessageBuilder.js:28 | a line starts with the emoji, then the position and the name in bold; it is longer exactly when there is a commander |
| GameResultMessage.BuildGameResultMessage | utilities/GameResultMessageBuilder.js:14-32 | sorts the array in place by position and returns the title followed by the lines of the sorted results |
| GameResultMessage.AppendLines | utilities/GameResultMessageBuilder.js:16-30 | the push loop gives the title followed by one line per result |
| GameResultMessage.MessageLists | utilities/GameResultMessageBuilder.js:14-30 | the message has one component more than there are results, the title first; the results appear once each, in ascending position |
| Register.CheckSlot | commands/gameTracking/register.js:119-149 | a slot passes iff it has exactly one of user and guest and has a commander; the option has the slot's position, player and commander; the slot fails with the missing-player error iff it has neither user nor guest, with the both-kinds error iff it has both, and with the missing-commander error iff it has exactly one but no commander, so the checks run in that order |
| Register.ValidateKeepsFailure | commands/gameTracking/register.js:113-150 | once a slot is rejected, later slots do not matter |
| Register.ValidateSlots | commands/gameTracking/register.js:113-150 | the loop returns the first rejection or the options |
| Register.ValidatedOptions | commands/gameTracking/register.js:144-149 | on success there is one option per slot, with positions 1, 2, ... in slot order |
| Register.ValidateRejectsFirstBadSlot | commands/gameTracking/register.js:119-142 | the command is rejected iff some slot fails; the reply names the first failing slot and its first failing check, in the order player, both, commander |
| Register.AlwaysFivePlayers | commands/gameTracking/register.js:153-159 | a validated command always has five players, so the "at least 2 players" reply is never sent |
| Register.GuestIdHasNoDash | commands/gameTracking/register.js:175 | for any guest name, guest ids `guest_{time}_{index}` contain no '-' |
| Register.PositionOptions | commands/gameTracking/register.js:198-201 | the menu for `n` players offers exactly `Position 1` .. `Position n` with values `"1"` .. `"n"` |
| Register.MenuIdRoundTrip | commands/gameTracking/register.js:195-217 | `register-{game}-{player}-position` splits back into the game and the player when neither has '-' |
| Register.RowsFor | commands/gameTracking/register.js:179-187 | one row per player |
| Register.EntriesFor | commands/gameTracking/register.js:189-203 | two components per player |
| Register.RegisterPlayers | commands/gameTracking/register.js:173-204 | the loop inserts the players' rows and builds their captions and menus |
| Register.RowsForPlayers | commands/gameTracking/register.js:175-187 | each row names the game, has no position, and has the player's id, name and commander |
| Register.MenusForPlayers | commands/gameTracking/register.js:193-203 | player `k`'s menu names the game and the player and offers every position from 1 to `n` |
| Register.Execute | commands/gameTracking/register.js:110-210 | the command is rejected exactly as validation says; otherwise it gives the rows and components of the registration |
| Register.PositionValue | commands/gameTracking/register.js:219 | a menu value is stored as a position iff it is a non-empty string of digits |
| Register.MenuValuesRoundTrip | commands/gameTracking/register.js:198-201 | every menu entry stores the position its caption shows |
| Register.SetPosition | commands/gameTracking/register.js:218-220 | the update sets the position of the rows of that game and player, and of no other row |
| Register.Announcement | commands/gameTracking/register.js:235 | the follow-up message is the game's result message, with the title first |
| Register.SelectMenu | commands/gameTracking/register.js:216-239 | a valid choice updates the player's rows, anything else leaves the table alone; either way, once the id names a game, the result message is posted iff every row of that game has a position |
| Register.RegisteredIffAllPlaced | commands/gameTracking/register.js:224-226 | the completion test holds iff every row of the game has a position |
| Register.RejectedChoiceAnnouncesCompleteGame | commands/gameTracking/register.js:216-238 | a choice that is not a number stores nothing, but an already complete game is announced again |
| Register.LastSelectionRegisters | commands/gameTracking/register.js:216-238 | the choice that places the last unplaced player completes the registration |
| Register.FreshGameNotRegistered | commands/gameTracking/register.js:226 | a game whose rows were just created is not registered |
| Register.SharedPositionRegisters | commands/gameTracking/register.js:226 | distinct positions are not required: two players both placed first still complete it |

## Left out

- Discord and socket.io I/O is not modelled: replies, deferrals, `io.emit` and connection handling. A handler returns the components it would send, or whether it emits `update`.
- The Supabase queries and the MeiliSearch autocomplete are not modelled. Query results are inputs. Query errors and their error replies are not modelled. The `tracker_games` table name in the result-message builder is a database matter.
- The filtered queries of `/history` (the inner join on a player's results) are not modelled: the guild's games matching the filter are given, newest first.
- Win rates and average positions are not modelled; they are floating-point `Math.round` divisions in `/h2h` and `/stats`.
- Dates are not modelled: `toLocaleDateString` is left out, and a game's `created_at` is an integer key that orders the `/h2h` details.
- `Date.now()` and `JSON.parse` of the commander option are parameters (`now`, `parse`). A JSON text that does not parse is not modelled.
- Discord builder objects are structured components holding the ids, captions and texts that matter.
- `ActivityServer.GameSession.SetHP`, `ActivityServer.GameSession.Config`: payload values are integers; non-numeric or fractional `hp`, `maxPlayers` and `startingHP` are not modelled.
- Player objects are values. `find` followed by a field write is an indexed update of the sequence, so aliasing of player objects is not modelled.
- `Stats.Aggregate`: object key order is first-seen order; the engine's reordering of integer-like keys is not modelled (keys are snowflake ids and guest ids).
- `Text.ParseNat`: `parseInt` is modelled for strings that start with a digit; signs and leading whitespace are not modelled.
- `History.ButtonInteraction`: an id whose page is missing, `NaN` or 0 gets no reply in the model; the source would query a negative or `NaN` range.
- `HeadToHead.ButtonInteraction`: an id missing a player segment gets no reply in the model. The dispatcher routes only `history-` buttons (events/interactionCreate.js:65), so `h2h` buttons never reach this handler; it is modelled as written.
- `Register.SelectMenu`: an id missing its player segment, an empty choice, or a value that is not digits leaves the table unchanged (the update matches no row, or the database rejects the cast); the completion test still runs. An id with no game segment gets no reply in the model; the source would query the rows of the game id `undefined`. Menu ids are always built with both segments.
- `HeadToHead.BuildReport`, `HeadToHead.Execute`: the summary shows the corrected count `NeitherWon` of games neither player won. The source prints `gamesWithBothPlayers.length - player1Wins - player2Wins`, which is negative when both players are recorded first in a game (see "## Findings"; `HeadToHead.OthersWonAsWritten` models the written expression).
- The display names that `/h2h` shows in the button path are "Player 1" and "Player 2", as the source sets them; the model keeps them.
- The client page (`activity/client/main.js`), module loading (`index.js`) and the interaction dispatcher are not modelled.

## Findings

| source | as written | input that shows it | evidently intended | confidence | as-written member | corrected member |
|---|---|---|---|---|---|---|
| commands/gameTracking/h2h.js:260 | the summary prints `gamesWithBothPlayers.length - player1Wins - player2Wins` as the games won by other players | one game together in which both players' results have position 1 (`/register` does not require distinct positions): the summary says -1 games | the number of games neither player won, never negative | medium, not executed | HeadToHead.OthersWonAsWrittenNegative | HeadToHead.NeitherWonCount |
