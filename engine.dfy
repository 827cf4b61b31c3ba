/**
 * The state of the timer screen (GameTimerScreen and PlayerList) pulled out of
 * its event handlers: the roster, the running flag and the queue of colours
 * still to be dealt. Each handler the screen wires to a control is a method.
 */
module Engine {
  import opened Colors
  import opened Decimal
  import opened Roster

  class TurnTimerEngine {
    /** The turn order; players[0] is the active player. */
    var players: seq<Player>
    var isRunning: bool
    /** Colours not yet dealt (the file-level `availableColors`). */
    var availableColors: seq<Color>

    ghost predicate Valid()
      reads this
    {
      Consistent(players, availableColors)
    }

    /**
     * A fresh start: the colour queue is a shuffle of the palette, the four
     * default players take the first four colours, and the clock is paused.
     */
    constructor (shuffle: seq<Color>)
      requires IsShuffle(shuffle)
      ensures Valid()
      ensures players == DefaultRoster(shuffle[..4]) && availableColors == shuffle[4..]
      ensures !isRunning
    {
      DefaultRosterConsistent(shuffle);
      players := DefaultRoster(shuffle[..4]);
      availableColors := shuffle[4..];
      isRunning := false;
    }

    /**
     * getAvailableColor: deal the head of the queue, refilling it from `reshuffle`
     * when empty. It is a step of the add button and of the start, not a command:
     * on its own it does not keep Valid() (a refill may deal a colour in use).
     */
    method GetAvailableColor(reshuffle: seq<Color>) returns (color: Color)
      requires IsShuffle(reshuffle)
      modifies this`availableColors
      ensures [color] + availableColors == (if old(availableColors) == [] then reshuffle else old(availableColors))
    {
      var queue := availableColors;
      if queue == [] {
        queue := reshuffle;
      }
      var dealt := Draw(queue, reshuffle);
      color := dealt.0;
      availableColors := dealt.1;
    }

    /** Once a second: the active clock loses a second while running; nothing changes while paused. */
    method Tick()
      requires Valid()
      modifies this`players
      ensures Valid()
      ensures players == if isRunning then DecrementActive(old(players)) else old(players)
    {
      if isRunning {
        var updated := players;
        updated := updated[0 := updated[0].(currentTime := updated[0].currentTime - 1)];
        assert updated == DecrementActive(players);
        assert forall k :: 0 <= k < |players| ==> updated[k].color == players[k].color;
        SameColorsConsistent(players, updated, availableColors);
        players := updated;
      }
    }

    /** The play/pause button: flips the running flag and nothing else. */
    method TogglePlay()
      requires Valid()
      modifies this`isRunning
      ensures Valid()
      ensures isRunning == !old(isRunning)
    {
      isRunning := !isRunning;
    }

    /** The big button: NEXT passes the turn while running, UNPAUSE starts the clock; either way it runs afterwards. */
    method NextOrUnpause()
      requires Valid()
      modifies this`players, this`isRunning
      ensures Valid()
      ensures players == Advance(old(players), old(isRunning))
      ensures isRunning
    {
      if isRunning {
        RotateConsistent(players, availableColors);
        players := players[1..] + [players[0]];
      }
      isRunning := true;
    }

    /**
     * The caption of the big button: its label text, and the name of the player who
     * is active once it is pressed.
     */
    method NextButtonCaption() returns (caption: string, name: string)
      requires Valid()
      ensures caption == if isRunning then "NEXT" else "UNPAUSE"
      ensures name == Advance(players, isRunning)[0].name
    {
      caption := if isRunning then "NEXT" else "UNPAUSE";
      name := if isRunning then players[1].name else players[0].name;
    }

    /** The reset button: every clock back to its player's duration. */
    method ResetAll()
      requires Valid()
      modifies this`players
      ensures Valid()
      ensures players == Roster.ResetAll(old(players))
    {
      var reset := Roster.ResetAll(players);
      SameColorsConsistent(players, reset, availableColors);
      players := reset;
    }

    /**
     * The add button, shown only while colours remain: appends a "New Player"
     * with the active player's duration and the next colour dealt.
     */
    method AddPlayer(reshuffle: seq<Color>) returns (added: bool)
      requires Valid() && IsShuffle(reshuffle)
      modifies this`players, this`availableColors
      ensures Valid()
      ensures added == (old(availableColors) != [])
      ensures added ==> players == WithNewPlayer(old(players), old(availableColors)[0])
                        && availableColors == old(availableColors)[1..]
      ensures !added ==> players == old(players) && availableColors == old(availableColors)
    {
      if availableColors == [] {
        return false;
      }
      WithNewPlayerConsistent(players, availableColors);
      var color := GetAvailableColor(reshuffle);
      players := players + [Player(NewPlayerName, players[0].initialTime, players[0].initialTime, color)];
      added := true;
    }

    /** The up arrow beside player i, shown for every player but the first. */
    method MoveUp(i: nat) returns (moved: bool)
      requires Valid() && i < |players|
      modifies this`players
      ensures Valid()
      ensures moved == (i != 0)
      ensures moved ==> players == SwapUp(old(players), i)
      ensures !moved ==> players == old(players)
    {
      if i == 0 {
        return false;
      }
      SwapUpConsistent(players, i, availableColors);
      players := players[..i - 1] + [players[i]] + [players[i - 1]] + players[i + 1..];
      moved := true;
    }

    /** Editing the name field of player i. */
    method Rename(i: nat, name: string)
      requires Valid() && i < |players|
      modifies this`players
      ensures Valid()
      ensures players == Renamed(old(players), i, name)
    {
      var updated := players;
      updated := updated[i := updated[i].(name := name)];
      SameColorsConsistent(players, updated, availableColors);
      players := updated;
    }

    /** Editing the duration field of player i: both clocks take the parsed number, or 0. */
    method SetDuration(i: nat, text: string)
      requires Valid() && i < |players|
      modifies this`players
      ensures Valid()
      ensures players == WithDuration(old(players), i, text)
    {
      var seconds := ParseIntOrZero(text);
      var updated := players;
      updated := updated[i := updated[i].(initialTime := seconds, currentTime := seconds)];
      SameColorsConsistent(players, updated, availableColors);
      players := updated;
    }

    /** The delete button beside player i, shown only while more than two players remain. */
    method DeletePlayer(i: nat) returns (deleted: bool)
      requires Valid() && i < |players|
      modifies this`players
      ensures Valid()
      ensures deleted == (|old(players)| > 2)
      ensures deleted ==> players == RemoveAt(old(players), i)
      ensures !deleted ==> players == old(players)
    {
      if |players| <= 2 {
        return false;
      }
      RemoveAtConsistent(players, i, availableColors);
      players := players[..i] + players[i + 1..];
      deleted := true;
    }
  }

  /** A script of the screen: unpausing keeps the order, a second passes, NEXT passes the turn. */
  method ScenarioTurns(e: TurnTimerEngine)
    requires e.Valid() && !e.isRunning
    modifies e
    ensures e.Valid() && e.isRunning
    ensures e.players[0] == old(e.players)[1]
    ensures e.players[|e.players| - 1].currentTime == old(e.players)[0].currentTime - 1
  {
    ghost var start := e.players;
    e.NextOrUnpause();
    e.Tick();
    ghost var ticked := e.players;
    e.NextOrUnpause();
    assert e.players == Rotate(ticked);
    assert e.players[0] == start[1];
    assert e.players[|start| - 1].currentTime == start[0].currentTime - 1;
  }

  /** A script of the settings list: deleting down to the two-player floor, then resetting. */
  method ScenarioDeletes(shuffle: seq<Color>) returns (e: TurnTimerEngine)
    requires IsShuffle(shuffle)
    ensures e.Valid() && |e.players| == 2
    ensures e.players[0].name == "Rachel" && e.players[1].name == "Ryan"
    ensures e.players[0].currentTime == DefaultTime && e.players[1].currentTime == DefaultTime
  {
    e := new TurnTimerEngine(shuffle);
    ghost var start := e.players;
    var deleted := e.DeletePlayer(0);
    assert deleted && |e.players| == 3 && e.players[0] == start[1];
    deleted := e.DeletePlayer(0);
    assert deleted && |e.players| == 2;
    deleted := e.DeletePlayer(1);
    assert !deleted && |e.players| == 2;
    e.ResetAll();
  }
}
