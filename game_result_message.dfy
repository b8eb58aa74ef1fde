/** `buildGameResultMessage`: the message posted once every position of a
    registered game is chosen. The two database reads are not modelled: the
    game's result rows are the input array, which is sorted in place. */
module GameResultMessage {
  import opened Wrappers
  import opened Text
  import opened Records
  import opened Sorting

  const Title := "🏆 Game Results 🏆"

  /** 🥇, 🥈 and 🥉 for positions 1, 2 and 3; 🎮 for any other position
      and for a position not chosen yet. */
  function PositionEmoji(position: Option<int>): (e: string)
  {
    if position == Some(1) then "🥇"
    else if position == Some(2) then "🥈"
    else if position == Some(3) then "🥉"
    else "🎮"
  }

  lemma PositionEmojiIsMedal(position: Option<int>)
    ensures |PositionEmoji(position)| == 1
    ensures PositionEmoji(position) == "🥇" <==> position == Some(1)
    ensures PositionEmoji(position) == "🥈" <==> position == Some(2)
    ensures PositionEmoji(position) == "🥉" <==> position == Some(3)
    ensures PositionEmoji(position) == "🎮" <==> !(position in {Some(1), Some(2), Some(3)})
  {
  }

  /** `${player_position}`: a null position prints as "null". */
  function PositionText(position: Option<int>): string {
    if position.Some? then IntToString(position.value) else "null"
  }

  /** ` piloting __{name}__`, or nothing when the commander name is null or
      empty. */
  function CommanderSuffix(name: Option<string>): (s: string)
    ensures s == "" <==> !Truthy(name)
  {
    if Truthy(name) then " piloting __" + name.value + "__" else ""
  }

  /** `{emoji} {position} - **{name}**{suffix}`. */
  function ResultLine(r: ResultRow): string {
    PositionEmoji(r.position) + " " + PositionText(r.position) + " - **" + r.playerName + "**" + CommanderSuffix(r.commanderName)
  }

  /** The lines of the rows, in order. */
  function ResultLines(rows: seq<ResultRow>): (lines: seq<string>)
    ensures |lines| == |rows|
    ensures forall k :: 0 <= k < |rows| ==> lines[k] == ResultLine(rows[k])
  {
    seq(|rows|, k requires 0 <= k < |rows| => ResultLine(rows[k]))
  }

  /** The message: the title, then one line per result in ascending
      position (a null position sorts as 0); the array ends up sorted. */
  method BuildGameResultMessage(results: array<ResultRow>) returns (components: seq<string>)
    modifies results
    ensures results[..] == SortBy(old(results[..]), PosKey)
    ensures components == [Title] + ResultLines(results[..])
  {
    SortInPlace(results, PosKey);
    components := AppendLines(results[..]);
  }

  /** The loop that pushes one line per sorted result after the title. */
  method AppendLines(rows: seq<ResultRow>) returns (components: seq<string>)
    ensures components == [Title] + ResultLines(rows)
  {
    ghost var lines := ResultLines(rows);
    components := [Title];
    var i := 0;
    while i < |rows|
      invariant 0 <= i <= |rows|
      invariant components == [Title] + lines[..i]
    {
      assert lines[..i + 1] == lines[..i] + [lines[i]];
      components := components + [ResultLine(rows[i])];
      i := i + 1;
    }
    assert lines[..i] == lines;
  }

  /** What the message promises: one component more than there are
      results, the title first, then (by `ResultLines`) one line for every
      result exactly once, in ascending position. */
  lemma MessageLists(rows: seq<ResultRow>, sorted: seq<ResultRow>, components: seq<string>)
    requires sorted == SortBy(rows, PosKey)
    requires components == [Title] + ResultLines(sorted)
    ensures |components| == |rows| + 1 && components[0] == Title
    ensures multiset(sorted) == multiset(rows) && SortedBy(sorted, PosKey)
  {
    SortBySorted(rows, PosKey);
    SortByPermutation(rows, PosKey);
  }

  /** A line starts with its medal and names the player in bold. */
  lemma ResultLineShape(r: ResultRow)
    ensures var line := ResultLine(r);
      var head := PositionEmoji(r.position) + " " + PositionText(r.position) + " - **" + r.playerName + "**";
      && line[0] == PositionEmoji(r.position)[0]
      && line[..|head|] == head
      && (Truthy(r.commanderName) <==> |line| > |head|)
  {
    var head := PositionEmoji(r.position) + " " + PositionText(r.position) + " - **" + r.playerName + "**";
    assert ResultLine(r) == head + CommanderSuffix(r.commanderName);
  }
}
