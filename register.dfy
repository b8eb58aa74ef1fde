/** `/register`: five player slots, each a Discord user or a guest name
    and a commander, are validated in order; the game's result rows are
    created without positions, with one position menu per player; each
    choice in a menu sets that player's position, and the game counts as
    registered once every one of its rows has a position. The database is
    a sequence of rows; `Date.now()` and `JSON.parse` are parameters. */
module Register {
  import opened Wrappers
  import opened Text
  import opened Records
  import opened Grouping
  import opened Sorting
  import GameResultMessage

  const SlotCount := 5

  /** The `player{i}`, `guest{i}` and `commander{i}` options of a slot; the
      commander is the JSON text the autocomplete put in the option. */
  datatype Slot = Slot(user: Option<User>, guest: Option<string>, commander: Option<string>)

  datatype SlotError = MissingPlayer(slot: nat) | BothPlayerKinds(slot: nat) | MissingCommander(slot: nat)

  /** The reply of a rejected slot. */
  function ErrorText(e: SlotError): string {
    match e
    case MissingPlayer(i) => "❌ You must provide either a Discord user or guest name for Player " + NatToString(i) + "."
    case BothPlayerKinds(i) =>
      "❌ You cannot provide both a Discord user and guest name for Player " + NatToString(i) + ". Choose one or the other."
    case MissingCommander(i) => "❌ You must provide a commander for Player " + NatToString(i) + "."
  }

  datatype Who = Member(user: User) | Guest(name: string)

  /** An entry of `playerOptions`. */
  datatype PlayerOption = PlayerOption(position: nat, who: Who, commander: string)

  /** The three checks of slot `i`, in the order the source makes them. */
  function CheckSlot(s: Slot, i: nat): (r: Result<PlayerOption, SlotError>)
    ensures r.Success? <==> (s.user.Some? != Truthy(s.guest)) && Truthy(s.commander)
    ensures r.Success? ==> r.value.position == i && r.value.commander == s.commander.value
    ensures r.Success? ==> r.value.who == (if s.user.Some? then Member(s.user.value) else Guest(s.guest.value))
    ensures r.Failure? ==> r.error.slot == i
    ensures r == Failure(MissingPlayer(i)) <==> s.user.None? && !Truthy(s.guest)
    ensures r == Failure(BothPlayerKinds(i)) <==> s.user.Some? && Truthy(s.guest)
    ensures r == Failure(MissingCommander(i)) <==> (s.user.Some? != Truthy(s.guest)) && !Truthy(s.commander)
  {
    if s.user.None? && !Truthy(s.guest) then Failure(MissingPlayer(i))
    else if s.user.Some? && Truthy(s.guest) then Failure(BothPlayerKinds(i))
    else if !Truthy(s.commander) then Failure(MissingCommander(i))
    else Success(PlayerOption(i, if s.user.Some? then Member(s.user.value) else Guest(s.guest.value), s.commander.value))
  }

  /** The validation loop over the first `|slots|` slots: the first slot
      that fails rejects the command, otherwise one option per slot. */
  function Validate(slots: seq<Slot>): Result<seq<PlayerOption>, SlotError> {
    if |slots| == 0 then Success([])
    else
      match Validate(slots[..|slots| - 1])
      case Failure(e) => Failure(e)
      case Success(options) =>
        match CheckSlot(slots[|slots| - 1], |slots|)
        case Failure(e) => Failure(e)
        case Success(option) => Success(options + [option])
  }

  /** A rejection of a first part of the slots rejects them all. */
  lemma {:induction false} ValidateKeepsFailure(slots: seq<Slot>, k: nat)
    requires k <= |slots| && Validate(slots[..k]).Failure?
    ensures Validate(slots) == Validate(slots[..k])
    decreases |slots| - k
  {
    if k < |slots| {
      assert slots[..k + 1][..k] == slots[..k];
      ValidateKeepsFailure(slots, k + 1);
    } else {
      assert slots[..k] == slots;
    }
  }

  method ValidateSlots(slots: seq<Slot>) returns (r: Result<seq<PlayerOption>, SlotError>)
    requires |slots| == SlotCount
    ensures r == Validate(slots)
  {
    var options := [];
    var i := 0;
    while i < |slots|
      invariant 0 <= i <= |slots|
      invariant Validate(slots[..i]) == Success(options)
    {
      assert slots[..i + 1][..i] == slots[..i];
      var checked := CheckSlot(slots[i], i + 1);
      if checked.Failure? {
        ValidateKeepsFailure(slots, i + 1);
        return Failure(checked.error);
      }
      options := options + [checked.value];
      i := i + 1;
    }
    assert slots[..i] == slots;
    r := Success(options);
  }

  /** On success there is one option per slot, with positions 1, 2, ... in
      slot order, each taken from its slot. */
  lemma {:induction false} ValidatedOptions(slots: seq<Slot>)
    requires Validate(slots).Success?
    ensures var options := Validate(slots).value;
      && |options| == |slots|
      && forall k :: 0 <= k < |slots| ==> CheckSlot(slots[k], k + 1) == Success(options[k])
  {
    if |slots| > 0 {
      var init := slots[..|slots| - 1];
      ValidatedOptions(init);
      forall k | 0 <= k < |init|
        ensures slots[k] == init[k]
      {
      }
    }
  }

  /** Rejection iff some slot fails its checks, and then the reply names
      the first such slot and its first failing check. */
  lemma {:induction false} ValidateRejectsFirstBadSlot(slots: seq<Slot>)
    ensures Validate(slots).Failure? <==> exists k :: 0 <= k < |slots| && CheckSlot(slots[k], k + 1).Failure?
    ensures Validate(slots).Failure? ==>
      var i := Validate(slots).error.slot;
      && 1 <= i <= |slots|
      && CheckSlot(slots[i - 1], i) == Failure(Validate(slots).error)
      && forall k :: 0 <= k < i - 1 ==> CheckSlot(slots[k], k + 1).Success?
  {
    if |slots| > 0 {
      var init := slots[..|slots| - 1];
      ValidateRejectsFirstBadSlot(init);
      forall k | 0 <= k < |init|
        ensures slots[k] == init[k]
      {
      }
      if Validate(slots).Success? {
        ValidatedOptions(slots);
      }
    }
  }

  /** With all five slots required, a validated command always has five
      players, so the "at least 2 players" reply is never sent. */
  lemma AlwaysFivePlayers(slots: seq<Slot>)
    requires |slots| == SlotCount && Validate(slots).Success?
    ensures |Validate(slots).value| == SlotCount >= 2
  {
    ValidatedOptions(slots);
  }

  // ---------------------------------------------------------------------
  // Creating the rows and the menus.

  datatype Commander = Commander(id: string, name: string)

  /** The Discord id of a member, or `guest_{time}_{index}` for a guest,
      `time` being what `Date.now()` returned at that iteration. */
  function PlayerId(who: Who, time: nat, index: nat): string {
    if who.Member? then who.user.id else "guest_" + NatToString(time) + "_" + NatToString(index)
  }

  function PlayerName(who: Who): string {
    if who.Member? then who.user.displayName else who.name
  }

  /** Guest ids hold no '-', so the menu id splits back into them. */
  lemma GuestIdHasNoDash(name: string, time: nat, index: nat)
    ensures '-' !in PlayerId(Guest(name), time, index)
  {
    var t := NatToString(time);
    var i := NatToString(index);
    DigitsHaveNoSeparator(t, '-');
    DigitsHaveNoSeparator(i, '-');
    var a := "guest_" + t;
    assert '-' !in a;
    assert '-' !in a + "_";
  }

  /** A menu entry: what the menu shows and the value it sends. */
  datatype MenuOption = MenuOption(caption: string, value: string)

  datatype Component = Caption(text: string) | PositionMenu(customId: string, options: seq<MenuOption>)

  /** `Position 1` .. `Position n`, with values `"1"` .. `"n"`. */
  function PositionOptions(n: nat): (options: seq<MenuOption>)
    ensures |options| == n
    ensures forall k :: 0 <= k < n ==> options[k] == MenuOption("Position " + NatToString(k + 1), NatToString(k + 1))
  {
    seq(n, k requires 0 <= k < n => MenuOption("Position " + NatToString(k + 1), NatToString(k + 1)))
  }

  /** `register-{gameId}-{playerId}-position`. */
  function MenuId(gameId: string, playerId: string): string {
    "register-" + gameId + "-" + playerId + "-position"
  }

  /** `[, gameId, playerId] = customId.split('-')`. */
  function ParseMenuId(customId: string): (Option<string>, Option<string>) {
    var parts := Split(customId, '-');
    (Part(parts, 1), Part(parts, 2))
  }

  lemma MenuIdRoundTrip(gameId: string, playerId: string)
    requires '-' !in gameId && '-' !in playerId
    ensures ParseMenuId(MenuId(gameId, playerId)) == (Some(gameId), Some(playerId))
  {
    assert MenuId(gameId, playerId) == "register" + ['-'] + (gameId + ['-'] + (playerId + ['-'] + "position"));
    SplitAtFirst("register", '-', gameId + ['-'] + (playerId + ['-'] + "position"));
    SplitAtFirst(gameId, '-', playerId + ['-'] + "position");
    SplitAtFirst(playerId, '-', "position");
  }

  /** The row inserted for the `i`-th of the players: no position yet. */
  function RowOf(option: PlayerOption, i: nat, gameId: string, time: nat, commander: Commander): ResultRow {
    ResultRow(gameId, PlayerId(option.who, time, i), PlayerName(option.who), commander.id, Some(commander.name), None)
  }

  /** The caption and the position menu of the `i`-th of `n` players. */
  function EntryOf(option: PlayerOption, i: nat, n: nat, gameId: string, time: nat, commander: Commander): seq<Component> {
    [CaptionOf(option, n, commander), MenuOf(option, i, n, gameId, time)]
  }

  /** The text above a menu: the player, the commander and the range of
      positions to choose from. */
  function CaptionOf(option: PlayerOption, n: nat, commander: Commander): Component {
    Caption(PlayerName(option.who) + " / " + commander.name + " (position 1 to " + NatToString(n) + ")")
  }

  /** The select menu of the `i`-th player's row. */
  function MenuOf(option: PlayerOption, i: nat, n: nat, gameId: string, time: nat): Component {
    PositionMenu(MenuId(gameId, PlayerId(option.who, time, i)), PositionOptions(n))
  }

  /** The rows of the first `|options|` players. */
  function RowsFor(options: seq<PlayerOption>, gameId: string, now: nat -> nat, parse: string -> Commander)
    : (rows: seq<ResultRow>)
    ensures |rows| == |options|
  {
    if |options| == 0 then []
    else
      var i := |options| - 1;
      RowsFor(options[..i], gameId, now, parse) + [RowOf(options[i], i, gameId, now(i), parse(options[i].commander))]
  }

  /** The components of the first `|options|` of `n` players. */
  function EntriesFor(options: seq<PlayerOption>, n: nat, gameId: string, now: nat -> nat, parse: string -> Commander)
    : (cs: seq<Component>)
    ensures |cs| == 2 * |options|
  {
    if |options| == 0 then []
    else
      var i := |options| - 1;
      EntriesFor(options[..i], n, gameId, now, parse) + EntryOf(options[i], i, n, gameId, now(i), parse(options[i].commander))
  }

  datatype Registration = Registration(rows: seq<ResultRow>, components: seq<Component>)

  /** The loop that inserts a row and pushes a caption and a menu for each
      player; `now(i)` is the clock at iteration `i` and `parse` the JSON
      decoding of a commander. */
  method RegisterPlayers(options: seq<PlayerOption>, gameId: string, now: nat -> nat, parse: string -> Commander)
    returns (r: Registration)
    ensures r == Registration(RowsFor(options, gameId, now, parse), EntriesFor(options, |options|, gameId, now, parse))
  {
    var rows := [];
    var components := [];
    var i := 0;
    while i < |options|
      invariant 0 <= i <= |options|
      invariant rows == RowsFor(options[..i], gameId, now, parse)
      invariant components == EntriesFor(options[..i], |options|, gameId, now, parse)
    {
      assert options[..i + 1][..i] == options[..i];
      var commander := parse(options[i].commander);
      var time := now(i);
      rows := rows + [RowOf(options[i], i, gameId, time, commander)];
      components := components + EntryOf(options[i], i, |options|, gameId, time, commander);
      i := i + 1;
    }
    assert options[..i] == options;
    r := Registration(rows, components);
  }

  /** The rows name the game, have no position, and follow the players. */
  lemma {:induction false} RowsForPlayers(options: seq<PlayerOption>, gameId: string, now: nat -> nat, parse: string -> Commander)
    ensures var rows := RowsFor(options, gameId, now, parse);
      forall k :: 0 <= k < |options| ==>
        && rows[k].gameId == gameId && rows[k].position.None?
        && rows[k].playerId == PlayerId(options[k].who, now(k), k)
        && rows[k].playerName == PlayerName(options[k].who)
        && rows[k].commanderName == Some(parse(options[k].commander).name)
  {
    if |options| > 0 {
      var i := |options| - 1;
      var rows := RowsFor(options, gameId, now, parse);
      var before := RowsFor(options[..i], gameId, now, parse);
      assert rows == before + [RowOf(options[i], i, gameId, now(i), parse(options[i].commander))];
      RowsForPlayers(options[..i], gameId, now, parse);
      forall k | 0 <= k < i
        ensures rows[k] == before[k] && options[..i][k] == options[k]
      {
      }
    }
  }

  /** Player `k`'s menu is at index `2k + 1`, names the game and the player,
      and offers every position from 1 to `n`. */
  lemma {:induction false} MenusForPlayers(options: seq<PlayerOption>, n: nat, gameId: string, now: nat -> nat, parse: string -> Commander)
    ensures var cs := EntriesFor(options, n, gameId, now, parse);
      forall k :: 0 <= k < |options| ==>
        cs[2 * k + 1] == PositionMenu(MenuId(gameId, PlayerId(options[k].who, now(k), k)), PositionOptions(n))
  {
    if |options| > 0 {
      var i := |options| - 1;
      var cs := EntriesFor(options, n, gameId, now, parse);
      var before := EntriesFor(options[..i], n, gameId, now, parse);
      var entry := EntryOf(options[i], i, n, gameId, now(i), parse(options[i].commander));
      assert cs == before + entry;
      assert cs[2 * i + 1] == entry[1] == MenuOf(options[i], i, n, gameId, now(i));
      MenusForPlayers(options[..i], n, gameId, now, parse);
      forall k | 0 <= k < i
        ensures cs[2 * k + 1] == before[2 * k + 1] && options[..i][k] == options[k]
      {
      }
    }
  }

  /** `execute`: validation, then the registration of a game whose id the
      database returned as `gameId`. */
  method Execute(slots: seq<Slot>, gameId: string, now: nat -> nat, parse: string -> Commander)
    returns (r: Result<Registration, SlotError>)
    requires |slots| == SlotCount
    ensures r.Failure? <==> Validate(slots).Failure?
    ensures r.Failure? ==> r.error == Validate(slots).error
    ensures r.Success? ==> var options := Validate(slots).value;
      r.value == Registration(RowsFor(options, gameId, now, parse), EntriesFor(options, |options|, gameId, now, parse))
  {
    var validated := ValidateSlots(slots);
    if validated.Failure? {
      return Failure(validated.error);
    }
    var registration := RegisterPlayers(validated.value, gameId, now, parse);
    r := Success(registration);
  }

  // ---------------------------------------------------------------------
  // Choosing positions.

  /** The column's cast of a menu value: digits only, else rejected. */
  function PositionValue(v: string): (p: Option<nat>)
    ensures p.Some? <==> v != "" && AllDigits(v)
  {
    if v != "" && AllDigits(v) then Some(DigitsValue(v)) else None
  }

  /** Every entry of the menu sets the position it shows. */
  lemma MenuValuesRoundTrip(n: nat, k: nat)
    requires k < n
    ensures PositionValue(PositionOptions(n)[k].value) == Some(k + 1)
    ensures PositionOptions(n)[k].caption == "Position " + PositionOptions(n)[k].value
  {
    DigitsValueOfNatToString(k + 1);
  }

  /** The update of every row of the game and player to the position. */
  function SetPosition(table: seq<ResultRow>, gameId: string, playerId: string, position: nat): (t: seq<ResultRow>)
    ensures |t| == |table|
    ensures forall k :: 0 <= k < |t| ==>
      t[k] == if table[k].gameId == gameId && table[k].playerId == playerId then table[k].(position := Some(position)) else table[k]
  {
    seq(|table|, k requires 0 <= k < |table| =>
      if table[k].gameId == gameId && table[k].playerId == playerId then table[k].(position := Some(position)) else table[k])
  }

  /** `results.every((result) => result.player_position !== null)`. */
  predicate Registered(results: seq<ResultRow>) {
    forall k :: 0 <= k < |results| ==> results[k].position.Some?
  }

  /** The table after a choice, and the result message posted when the
      choice completed the game. */
  datatype Selection = Selection(table: seq<ResultRow>, announcement: Option<seq<string>>)

  /** `buildGameResultMessage(gameId)` on the game's rows. */
  function Announcement(table: seq<ResultRow>, gameId: string): (lines: seq<string>)
    ensures |lines| == |ResultsOf(table, gameId)| + 1 && lines[0] == GameResultMessage.Title
  {
    [GameResultMessage.Title] + GameResultMessage.ResultLines(SortBy(ResultsOf(table, gameId), PosKey))
  }

  /** `selectMenu`: the position chosen in the menu `customId` is stored for
      the player; then, whether or not that update applied, once every row
      of the game has a position the game is registered and its result
      message is posted. A missing player segment, an empty choice or a
      value that is not a number leave the table as it was. */
  function SelectMenu(customId: string, values: seq<string>, table: seq<ResultRow>): (s: Selection)
    ensures var (gameId, playerId) := ParseMenuId(customId);
      gameId.None? ==> s == Selection(table, None)
    ensures var (gameId, playerId) := ParseMenuId(customId);
      gameId.Some? ==>
        && s.table == (if playerId.Some? && |values| > 0 && PositionValue(values[0]).Some?
                       then SetPosition(table, gameId.value, playerId.value, PositionValue(values[0]).value)
                       else table)
        && (s.announcement.Some? <==> forall k :: 0 <= k < |s.table| && s.table[k].gameId == gameId.value ==> s.table[k].position.Some?)
        && (s.announcement.Some? ==> s.announcement.value == Announcement(s.table, gameId.value))
  {
    var (gameId, playerId) := ParseMenuId(customId);
    if gameId.None? then Selection(table, None)
    else
      var updated :=
        if playerId.Some? && |values| > 0 && PositionValue(values[0]).Some?
        then SetPosition(table, gameId.value, playerId.value, PositionValue(values[0]).value)
        else table;
      RegisteredIffAllPlaced(updated, gameId.value);
      Selection(updated, if Registered(ResultsOf(updated, gameId.value)) then Some(Announcement(updated, gameId.value)) else None)
  }

  /** The completion test: a game is registered iff each of its rows in the
      table has a position. */
  lemma RegisteredIffAllPlaced(table: seq<ResultRow>, gameId: string)
    ensures Registered(ResultsOf(table, gameId)) <==>
      forall k :: 0 <= k < |table| && table[k].gameId == gameId ==> table[k].position.Some?
  {
    var rs := ResultsOf(table, gameId);
    if Registered(rs) {
      forall k | 0 <= k < |table| && table[k].gameId == gameId
        ensures table[k].position.Some?
      {
        EveryRowInItsBucket(table, k);
        var j :| 0 <= j < |rs| && rs[j] == table[k];
      }
    }
    if forall k :: 0 <= k < |table| && table[k].gameId == gameId ==> table[k].position.Some? {
      forall j | 0 <= j < |rs|
        ensures rs[j].position.Some?
      {
        assert rs[j] in rs;
        var k :| 0 <= k < |table| && table[k] == rs[j];
      }
    }
  }

  /** The selection that places the last unplaced player of a game
      completes its registration. */
  lemma LastSelectionRegisters(table: seq<ResultRow>, gameId: string, playerId: string, value: string)
    requires '-' !in gameId && '-' !in playerId && PositionValue(value).Some?
    requires forall k :: 0 <= k < |table| && table[k].gameId == gameId && table[k].playerId != playerId ==> table[k].position.Some?
    ensures SelectMenu(MenuId(gameId, playerId), [value], table).announcement.Some?
  {
    MenuIdRoundTrip(gameId, playerId);
    var updated := SetPosition(table, gameId, playerId, PositionValue(value).value);
    RegisteredIffAllPlaced(updated, gameId);
  }

  /** A choice that is not a number stores nothing, yet a game that is
      already complete is announced again. */
  lemma RejectedChoiceAnnouncesCompleteGame(table: seq<ResultRow>, gameId: string, playerId: string, value: string)
    requires '-' !in gameId && '-' !in playerId && PositionValue(value).None?
    requires forall k :: 0 <= k < |table| && table[k].gameId == gameId ==> table[k].position.Some?
    ensures SelectMenu(MenuId(gameId, playerId), [value], table) == Selection(table, Some(Announcement(table, gameId)))
  {
    MenuIdRoundTrip(gameId, playerId);
  }

  /** A game whose rows were just created is not registered. */
  lemma FreshGameNotRegistered(options: seq<PlayerOption>, gameId: string, now: nat -> nat, parse: string -> Commander)
    requires |options| > 0
    ensures !Registered(ResultsOf(RowsFor(options, gameId, now, parse), gameId))
  {
    var rows := RowsFor(options, gameId, now, parse);
    RowsForPlayers(options, gameId, now, parse);
    RegisteredIffAllPlaced(rows, gameId);
    assert rows[0].gameId == gameId && rows[0].position.None?;
  }

  /** Distinct positions are not required: two players both placed first
      still complete the registration. */
  lemma SharedPositionRegisters()
    ensures var a := ResultRow("7", "1", "Ann", "c1", Some("Atraxa"), Some(1));
      var b := ResultRow("7", "2", "Bo", "c2", Some("Edgar"), Some(1));
      Registered(ResultsOf([a, b], "7"))
  {
    var a := ResultRow("7", "1", "Ann", "c1", Some("Atraxa"), Some(1));
    var b := ResultRow("7", "2", "Bo", "c2", Some("Edgar"), Some(1));
    RegisteredIffAllPlaced([a, b], "7");
  }
}
