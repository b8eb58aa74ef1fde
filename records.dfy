/** The rows the slash commands read from the `tracker_game` and
    `tracker_game_results` tables, and the Discord user they are given.
    The database queries themselves are not modelled: rows are inputs. */
module Records {
  import opened Wrappers

  /** A `tracker_game` row; `created_at` is an abstract time stamp. */
  datatype GameRow = GameRow(id: string, createdAt: int)

  /** A `tracker_game_results` row. `position` is `None` while the position
      has not been chosen yet (a SQL null); `commanderName` may be null. */
  datatype ResultRow = ResultRow(
    gameId: string,
    playerId: string,
    playerName: string,
    commanderId: string,
    commanderName: Option<string>,
    position: Option<int>)

  /** A Discord user as the commands see it. */
  datatype User = User(id: string, displayName: string)

  /** JavaScript truthiness of a string that may be null. */
  predicate Truthy(s: Option<string>) {
    s.Some? && s.value != ""
  }

  /** The number the sort comparator `a.player_position - b.player_position`
      sees: JavaScript coerces a null position to 0. */
  function PosKey(r: ResultRow): int {
    if r.position.Some? then r.position.value else 0
  }

  /** `player_position === 1`. */
  predicate IsWin(r: ResultRow) {
    r.position == Some(1)
  }
}
