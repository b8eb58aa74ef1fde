/** The activity server's in-memory game: a capacity (`maxPlayers`), the hp
    every player starts with (`startingHP`) and the ordered list of players.
    Each socket event handler is a method that changes the game in place and
    returns whether the handler emits `update` to every client. */
module ActivityServer {
  import opened Wrappers

  datatype Player = Player(id: string, username: string, hp: int)

  /** The bounds `config` accepts for `maxPlayers`. */
  const MinCapacity := 2
  const MaxCapacity := 6

  predicate HasId(players: seq<Player>, id: string) {
    exists k :: 0 <= k < |players| && players[k].id == id
  }

  predicate UniqueIds(players: seq<Player>) {
    forall i, j :: 0 <= i < j < |players| ==> players[i].id != players[j].id
  }

  /** The ids in list order. */
  function Ids(players: seq<Player>): seq<string> {
    seq(|players|, k requires 0 <= k < |players| => players[k].id)
  }

  /** `players.find((p) => p.id === id)`, as the index of the first match. */
  function FindIndex(players: seq<Player>, id: string): (r: Option<nat>)
    ensures r.None? <==> !HasId(players, id)
    ensures r.Some? ==> r.value < |players| && players[r.value].id == id
    ensures r.Some? ==> forall k :: 0 <= k < r.value ==> players[k].id != id
  {
    if |players| == 0 then None
    else if players[0].id == id then Some(0)
    else
      match FindIndex(players[1..], id)
      case None => None
      case Some(k) => Some(k + 1)
  }

  /** `players.filter((p) => p.id !== id)`. */
  function Without(players: seq<Player>, id: string): seq<Player> {
    if |players| == 0 then []
    else (if players[0].id == id then [] else [players[0]]) + Without(players[1..], id)
  }

  /** `players.map((p) => ({ ...p, hp }))`. */
  function ResetHP(players: seq<Player>, hp: int): (r: seq<Player>)
    ensures |r| == |players|
    ensures forall k :: 0 <= k < |r| ==> r[k] == players[k].(hp := hp)
  {
    seq(|players|, k requires 0 <= k < |players| => players[k].(hp := hp))
  }

  /** Leave never brings in a player, and afterwards nobody has the id. */
  lemma {:induction false} WithoutRemoves(players: seq<Player>, id: string)
    ensures forall p :: p in Without(players, id) <==> p in players && p.id != id
    ensures !HasId(Without(players, id), id)
  {
    if |players| > 0 {
      WithoutRemoves(players[1..], id);
      assert players == [players[0]] + players[1..];
    }
  }

  /** Leaving with an id nobody has changes nothing. */
  lemma {:induction false} WithoutAbsent(players: seq<Player>, id: string)
    requires !HasId(players, id)
    ensures Without(players, id) == players
  {
    if |players| > 0 {
      assert !HasId(players[1..], id) by {
        forall k | 0 <= k < |players| - 1 ensures players[1..][k].id != id {
          assert players[1..][k] == players[k + 1];
        }
      }
      WithoutAbsent(players[1..], id);
      assert players == [players[0]] + players[1..];
    }
  }

  /** Leave is idempotent. */
  lemma WithoutIdempotent(players: seq<Player>, id: string)
    ensures Without(Without(players, id), id) == Without(players, id)
  {
    WithoutRemoves(players, id);
    WithoutAbsent(Without(players, id), id);
  }

  /** With unique ids, leave removes exactly the one entry with that id and
      keeps the others in their order. */
  lemma {:induction false} WithoutAt(players: seq<Player>, id: string, k: nat)
    requires UniqueIds(players) && k < |players| && players[k].id == id
    ensures Without(players, id) == players[..k] + players[k + 1..]
  {
    if k == 0 {
      assert !HasId(players[1..], id) by {
        forall j | 0 <= j < |players| - 1 ensures players[1..][j].id != id {
          assert players[1..][j] == players[j + 1];
        }
      }
      WithoutAbsent(players[1..], id);
    } else {
      WithoutAt(players[1..], id, k - 1);
      assert players[1..][..k - 1] == players[1..k];
      assert players[1..][k..] == players[k + 1..];
      assert players[..k] == [players[0]] + players[1..k];
    }
  }

  /** Leave keeps the ids unique. */
  lemma {:induction false} WithoutUnique(players: seq<Player>, id: string)
    requires UniqueIds(players)
    ensures UniqueIds(Without(players, id))
  {
    if |players| > 0 {
      WithoutUnique(players[1..], id);
      WithoutRemoves(players[1..], id);
      var rest := Without(players[1..], id);
      if players[0].id != id {
        var r := [players[0]] + rest;
        forall j | 1 <= j < |r| ensures r[0].id != r[j].id {
          assert r[j] in rest;
          var m :| 0 <= m < |players| - 1 && players[1..][m] == r[j];
          assert players[m + 1] == r[j];
        }
      }
    }
  }

  /** A join appends a player whose id is new, so the ids stay unique. */
  lemma AppendUnique(players: seq<Player>, p: Player)
    requires UniqueIds(players) && !HasId(players, p.id)
    ensures UniqueIds(players + [p])
  {
  }

  /** The config reset leaves ids, usernames, order and length alone. */
  lemma ResetKeepsIds(players: seq<Player>, hp: int)
    ensures Ids(ResetHP(players, hp)) == Ids(players)
    ensures UniqueIds(players) ==> UniqueIds(ResetHP(players, hp))
  {
  }

  class GameSession {
    var maxPlayers: int
    var startingHP: int
    var players: seq<Player>

    /** What every handler keeps. `|players| <= maxPlayers` is not among
        them: `config` may lower `maxPlayers` below the current count. */
    ghost predicate Valid()
      reads this
    {
      MinCapacity <= maxPlayers <= MaxCapacity && startingHP > 0 && UniqueIds(players)
    }

    /** The game at process start. */
    constructor ()
      ensures Valid()
      ensures maxPlayers == 4 && startingHP == 20 && players == []
    {
      maxPlayers := 4;
      startingHP := 20;
      players := [];
    }

    /** `join`: appended only when there is room and the id is new. */
    method Join(id: string, username: string) returns (broadcast: bool)
      requires Valid()
      modifies this
      ensures Valid()
      ensures broadcast <==> |old(players)| < old(maxPlayers) && !HasId(old(players), id)
      ensures players == if broadcast then old(players) + [Player(id, username, old(startingHP))] else old(players)
      ensures maxPlayers == old(maxPlayers) && startingHP == old(startingHP)
      ensures broadcast ==> |players| <= maxPlayers
    {
      broadcast := |players| < maxPlayers && FindIndex(players, id).None?;
      if broadcast {
        AppendUnique(players, Player(id, username, startingHP));
        players := players + [Player(id, username, startingHP)];
      }
    }

    /** `leave`: every entry with the id goes, the rest keep their order;
        the update is always emitted. */
    method Leave(id: string) returns (broadcast: bool)
      requires Valid()
      modifies this
      ensures Valid()
      ensures broadcast
      ensures players == Without(old(players), id)
      ensures !HasId(old(players), id) ==> players == old(players)
      ensures maxPlayers == old(maxPlayers) && startingHP == old(startingHP)
    {
      WithoutUnique(players, id);
      if !HasId(players, id) {
        WithoutAbsent(players, id);
      }
      players := Without(players, id);
      broadcast := true;
    }

    /** `setHP`: only the hp of the first player with the id changes, to any
        integer; an unknown id changes nothing and emits nothing. */
    method SetHP(id: string, hp: int) returns (broadcast: bool)
      requires Valid()
      modifies this
      ensures Valid()
      ensures broadcast <==> HasId(old(players), id)
      ensures Ids(players) == Ids(old(players))
      ensures forall k :: 0 <= k < |players| ==>
        players[k] == if old(players)[k].id == id then old(players)[k].(hp := hp) else old(players)[k]
      ensures maxPlayers == old(maxPlayers) && startingHP == old(startingHP)
    {
      var found := FindIndex(players, id);
      broadcast := found.Some?;
      if found.Some? {
        var k := found.value;
        players := players[k := players[k].(hp := hp)];
      }
    }

    /** `config`: each field is taken only when in range, then every player's
        hp is reset to the (possibly unchanged) starting hp; always emitted. */
    method Config(newMaxPlayers: int, newStartingHP: int) returns (broadcast: bool)
      requires Valid()
      modifies this
      ensures Valid()
      ensures broadcast
      ensures maxPlayers == if MinCapacity <= newMaxPlayers <= MaxCapacity then newMaxPlayers else old(maxPlayers)
      ensures startingHP == if newStartingHP > 0 then newStartingHP else old(startingHP)
      ensures Ids(players) == Ids(old(players))
      ensures forall k :: 0 <= k < |players| ==> players[k] == old(players)[k].(hp := startingHP)
    {
      if MinCapacity <= newMaxPlayers <= MaxCapacity {
        maxPlayers := newMaxPlayers;
      }
      if newStartingHP > 0 {
        startingHP := newStartingHP;
      }
      ResetKeepsIds(players, startingHP);
      players := ResetHP(players, startingHP);
      broadcast := true;
    }
  }

  /** A second join under the same id is dropped, and so is a join once
      a table shrunk to two seats is full. */
  method FillTheTable() {
    var game := new GameSession();
    var b := game.Config(2, 20);
    b := game.Join("A", "Ann");
    assert b && game.players == [Player("A", "Ann", 20)];
    assert game.players[0].id == "A" && HasId(game.players, "A");
    b := game.Join("A", "Ann");
    assert !b && game.players == [Player("A", "Ann", 20)];
    assert !HasId(game.players, "B");
    b := game.Join("B", "Bob");
    assert b && |game.players| == 2;
    b := game.Join("C", "Cid");
    assert !b && |game.players| == 2;
  }

  /** An hp change touches only the player it names. */
  method ChangeOneHP() {
    var game := new GameSession();
    var b := game.Join("A", "Ann");
    b := game.Join("B", "Bob");
    ghost var two := game.players;
    assert two == [Player("A", "Ann", 20), Player("B", "Bob", 20)];
    assert two[0].id == "A" && two[1].id != "A";
    assert HasId(two, "A");
    b := game.SetHP("A", 5);
    assert game.players[0] == two[0].(hp := 5) && game.players[1] == two[1];
    assert b && game.players[0].hp == 5 && game.players[1].hp == 20;
  }

  /** A config reset lowers the capacity without removing anyone, and a
      leave keeps the order of the others. */
  method ShrinkAndLeave() {
    var game := new GameSession();
    var b := game.Join("A", "Ann");
    b := game.Join("B", "Bob");
    b := game.Join("C", "Cid");
    b := game.Config(2, 10);
    assert game.maxPlayers == 2 && game.startingHP == 10 && |game.players| == 3;
    var before := game.players;
    assert before[1].id == "B";
    b := game.Leave("B");
    WithoutAt(before, "B", 1);
    assert game.players == [before[0], before[2]];
    assert game.players[0].hp == 10;
  }
}
