/**
 * The roster: the ordered list of players, position 0 being the active player.
 * Every command of the timer screen replaces the list by a new one built with
 * list expressions (copy, map, take/drop, concatenation); those transforms are
 * the functions here, with their properties and the invariant they keep.
 */
module Roster {
  import opened Colors
  import opened Decimal
  import ClockFormat

  /**
   * Player: the Kotlin class has mutable fields, but the screen only ever
   * replaces players by copies, so a player is a value here.
   */
  datatype Player = Player(name: string, currentTime: int, initialTime: int, color: Color) {
    /** Player.timeString(): the clock as "mm:ss", which reads back to the clock while it is not below zero. */
    function TimeString(): (s: string)
      ensures currentTime >= 0 ==> ClockFormat.ParseClock(s) == Some(currentTime)
    {
      if currentTime >= 0 then
        ClockFormat.TimeStringRoundTrip(currentTime);
        ClockFormat.TimeString(currentTime)
      else ClockFormat.TimeString(currentTime)
    }
  }

  /** Seconds on every clock of the starting roster. */
  const DefaultTime: int := 900
  const NewPlayerName: string := "New Player"

  /** The four players the screen starts with, coloured by the first four colours dealt. */
  function DefaultRoster(colors: seq<Color>): (r: seq<Player>)
    requires |colors| == 4
    ensures |r| == 4 && ColorsOf(r) == colors
    ensures forall k :: 0 <= k < 4 ==> r[k].currentTime == DefaultTime && r[k].initialTime == DefaultTime
    ensures r[0].name == "Hannah" && r[1].name == "Tim" && r[2].name == "Rachel" && r[3].name == "Ryan"
  {
    [ Player("Hannah", DefaultTime, DefaultTime, colors[0]),
      Player("Tim", DefaultTime, DefaultTime, colors[1]),
      Player("Rachel", DefaultTime, DefaultTime, colors[2]),
      Player("Ryan", DefaultTime, DefaultTime, colors[3]) ]
  }

  function ColorsOf(ps: seq<Player>): (cs: seq<Color>)
    ensures |cs| == |ps| && forall k :: 0 <= k < |ps| ==> cs[k] == ps[k].color
  {
    seq(|ps|, k requires 0 <= k < |ps| => ps[k].color)
  }

  /**
   * What every state the model reaches satisfies: at least two players (so
   * players[1], shown on the NEXT button, exists), and the roster's colours
   * together with the colours still queued are palette colours, none twice.
   */
  predicate Consistent(ps: seq<Player>, queue: seq<Color>) {
    |ps| >= 2 && NoRepeats(multiset(ColorsOf(ps) + queue))
  }

  // ---------------------------------------------------------------- clock

  /** One second off the active player's clock; there is no floor at zero. */
  function DecrementActive(ps: seq<Player>): (r: seq<Player>)
    requires |ps| >= 1
    ensures |r| == |ps| && r[1..] == ps[1..]
    ensures r[0].currentTime == ps[0].currentTime - 1
    ensures r[0].name == ps[0].name && r[0].initialTime == ps[0].initialTime && r[0].color == ps[0].color
  {
    ps[0 := ps[0].(currentTime := ps[0].currentTime - 1)]
  }

  /** The roster after n running seconds. */
  function Countdown(ps: seq<Player>, n: nat): (r: seq<Player>)
    requires |ps| >= 1
    ensures |r| == |ps|
    decreases n
  {
    if n == 0 then ps else DecrementActive(Countdown(ps, n - 1))
  }

  /** n running seconds take exactly n seconds off the active clock and touch nothing else. */
  lemma {:induction false} CountdownActiveOnly(ps: seq<Player>, n: nat)
    requires |ps| >= 1
    ensures Countdown(ps, n) == ps[0 := ps[0].(currentTime := ps[0].currentTime - n)]
    decreases n
  {
    if n > 0 {
      CountdownActiveOnly(ps, n - 1);
    }
  }

  /** A clock at 10 reads 0 after ten seconds and -1 after eleven. */
  lemma CountdownPastZero(ps: seq<Player>)
    requires |ps| >= 1 && ps[0].currentTime == 10
    ensures Countdown(ps, 10)[0].currentTime == 0
    ensures Countdown(ps, 11)[0].currentTime == -1
  {
    CountdownActiveOnly(ps, 10);
    CountdownActiveOnly(ps, 11);
  }

  /** Every clock back at its configured duration (the reset button). */
  function ResetAll(ps: seq<Player>): (r: seq<Player>)
    ensures |r| == |ps|
    ensures forall k :: 0 <= k < |ps| ==>
      r[k].currentTime == ps[k].initialTime && r[k].initialTime == ps[k].initialTime
      && r[k].name == ps[k].name && r[k].color == ps[k].color
  {
    seq(|ps|, k requires 0 <= k < |ps| => ps[k].(currentTime := ps[k].initialTime))
  }

  /** Resetting twice is resetting once. */
  lemma ResetAllIdempotent(ps: seq<Player>)
    ensures ResetAll(ResetAll(ps)) == ResetAll(ps)
  {
  }

  /** A reset undoes any amount of running time. */
  lemma ResetAllAfterCountdown(ps: seq<Player>, n: nat)
    requires |ps| >= 1
    ensures ResetAll(Countdown(ps, n)) == ResetAll(ps)
  {
    CountdownActiveOnly(ps, n);
    var r, s := ResetAll(Countdown(ps, n)), ResetAll(ps);
    assert forall k :: 0 <= k < |ps| ==> r[k] == s[k];
  }

  // ---------------------------------------------------------------- turns

  /** players.drop(1) + players.first(): the active player goes to the back. */
  function Rotate(ps: seq<Player>): (r: seq<Player>)
    requires |ps| >= 1
    ensures |r| == |ps| && multiset(r) == multiset(ps)
    ensures r[|r| - 1] == ps[0]
    ensures forall k :: 0 <= k < |ps| - 1 ==> r[k] == ps[k + 1]
  {
    assert ps == [ps[0]] + ps[1..];
    ps[1..] + [ps[0]]
  }

  /** The big button: NEXT passes the turn while running; UNPAUSE keeps the order. */
  function Advance(ps: seq<Player>, running: bool): (r: seq<Player>)
    requires |ps| >= 1
    ensures |r| == |ps| && multiset(r) == multiset(ps)
    ensures running ==> r[0] == (if |ps| >= 2 then ps[1] else ps[0])
    ensures !running ==> r == ps
  {
    if running then Rotate(ps) else ps
  }

  /** The roster after n turns have been passed. */
  function Rotations(ps: seq<Player>, n: nat): (r: seq<Player>)
    requires |ps| >= 1
    ensures |r| == |ps| && multiset(r) == multiset(ps)
    decreases n
  {
    if n == 0 then ps else Rotate(Rotations(ps, n - 1))
  }

  /** After n <= |ps| turns the roster reads from position n round to n - 1. */
  lemma {:induction false} RotationsSplit(ps: seq<Player>, n: nat)
    requires |ps| >= 1 && n <= |ps|
    ensures Rotations(ps, n) == ps[n..] + ps[..n]
    decreases n
  {
    if n == 0 {
      RotationsZero(ps);
    } else {
      var m: nat := n - 1;
      RotationsSplit(ps, m);
      RotationsStep(ps, m, n);
    }
  }

  lemma RotationsZero(ps: seq<Player>)
    requires |ps| >= 1
    ensures Rotations(ps, 0) == ps[0..] + ps[..0]
  {
    assert ps[0..] + ps[..0] == ps;
  }

  lemma RotationsStep(ps: seq<Player>, m: nat, n: nat)
    requires n == m + 1 && n <= |ps| && Rotations(ps, m) == ps[m..] + ps[..m]
    ensures Rotations(ps, n) == ps[n..] + ps[..n]
  {
    RotationsUnfold(ps, m, n);
    RotateSplit(ps, m);
  }

  lemma RotationsUnfold(ps: seq<Player>, m: nat, n: nat)
    requires |ps| >= 1 && n == m + 1
    ensures Rotations(ps, n) == Rotate(Rotations(ps, m))
  {
  }

  /** One more turn on a split roster moves the split point by one. */
  lemma RotateSplit(ps: seq<Player>, m: nat)
    requires m < |ps|
    ensures Rotate(ps[m..] + ps[..m]) == ps[m + 1..] + ps[..m + 1]
  {
    var s := ps[m..] + ps[..m];
    assert s[0] == ps[m];
    assert s[1..] == ps[m + 1..] + ps[..m];
    assert ps[..m] + [ps[m]] == ps[..m + 1];
  }

  /**
   * Passing the turn gives every player the turn once, in roster order, and a
   * full round brings the original order back.
   */
  lemma TurnOrder(ps: seq<Player>)
    requires |ps| >= 1
    ensures forall n :: 0 <= n < |ps| ==> Rotations(ps, n)[0] == ps[n]
    ensures Rotations(ps, |ps|) == ps
  {
    forall n | 0 <= n < |ps| ensures Rotations(ps, n)[0] == ps[n] {
      RotationsSplit(ps, n);
    }
    RotationsSplit(ps, |ps|);
    assert ps[|ps|..] + ps[..|ps|] == ps;
  }

  // ---------------------------------------------------------------- editing

  /** players.take(i - 1) + players[i] + players[i - 1] + players.drop(i + 1). */
  function SwapUp(ps: seq<Player>, i: nat): (r: seq<Player>)
    requires 0 < i < |ps|
    ensures |r| == |ps| && multiset(r) == multiset(ps)
    ensures r[i - 1] == ps[i] && r[i] == ps[i - 1]
    ensures forall k :: 0 <= k < |ps| && k != i - 1 && k != i ==> r[k] == ps[k]
  {
    assert ps == ps[..i - 1] + [ps[i - 1]] + [ps[i]] + ps[i + 1..];
    ps[..i - 1] + [ps[i]] + [ps[i - 1]] + ps[i + 1..]
  }

  /** Moving up agrees with swapping the two entries in place, and moving up twice restores the order. */
  lemma SwapUpInPlace(ps: seq<Player>, i: nat)
    requires 0 < i < |ps|
    ensures SwapUp(ps, i) == ps[i - 1 := ps[i]][i := ps[i - 1]]
    ensures SwapUp(SwapUp(ps, i), i) == ps
  {
  }

  /** players.take(i) + players.drop(i + 1). */
  function RemoveAt(ps: seq<Player>, i: nat): (r: seq<Player>)
    requires i < |ps|
    ensures |r| == |ps| - 1
    ensures forall k :: 0 <= k < |r| ==> r[k] == (if k < i then ps[k] else ps[k + 1])
    ensures multiset(r) + multiset{ps[i]} == multiset(ps)
  {
    assert ps == ps[..i] + [ps[i]] + ps[i + 1..];
    ps[..i] + ps[i + 1..]
  }

  /** The player the add button appends: named "New Player", with the active player's duration. */
  function WithNewPlayer(ps: seq<Player>, c: Color): (r: seq<Player>)
    requires |ps| >= 1
    ensures |r| == |ps| + 1 && r[..|ps|] == ps
    ensures r[|ps|].name == NewPlayerName && r[|ps|].color == c
    ensures r[|ps|].currentTime == ps[0].initialTime && r[|ps|].initialTime == ps[0].initialTime
  {
    ps + [Player(NewPlayerName, ps[0].initialTime, ps[0].initialTime, c)]
  }

  /** The name field of player i edited. */
  function Renamed(ps: seq<Player>, i: nat, name: string): (r: seq<Player>)
    requires i < |ps|
    ensures |r| == |ps| && r[i].name == name
    ensures r[i].currentTime == ps[i].currentTime && r[i].initialTime == ps[i].initialTime
    ensures r[i].color == ps[i].color
    ensures forall k :: 0 <= k < |ps| && k != i ==> r[k] == ps[k]
  {
    ps[i := ps[i].(name := name)]
  }

  /** The duration field of player i edited: both clocks take the parsed text, or 0. */
  function WithDuration(ps: seq<Player>, i: nat, text: string): (r: seq<Player>)
    requires i < |ps|
    ensures |r| == |ps|
    ensures r[i].initialTime == ParseIntOrZero(text) && r[i].currentTime == ParseIntOrZero(text)
    ensures r[i].name == ps[i].name && r[i].color == ps[i].color
    ensures forall k :: 0 <= k < |ps| && k != i ==> r[k] == ps[k]
  {
    var v := ParseIntOrZero(text);
    ps[i := ps[i].(initialTime := v, currentTime := v)]
  }

  /** Typing 120 over a clock at 45 sets both clocks of that player to 120. */
  lemma DurationEditExample(ps: seq<Player>, i: nat)
    requires i < |ps| && ps[i].currentTime == 45
    ensures WithDuration(ps, i, "120")[i].currentTime == 120
    ensures WithDuration(ps, i, "120")[i].initialTime == 120
  {
    ParseIntOrZeroExamples();
  }

  /** Leaving the field's text as shown (the clock's own digits) makes the clock its new duration. */
  lemma DurationEditUnchangedText(ps: seq<Player>, i: nat)
    requires i < |ps|
    ensures WithDuration(ps, i, IntToString(ps[i].currentTime))[i].initialTime == ps[i].currentTime
    ensures WithDuration(ps, i, IntToString(ps[i].currentTime))[i].currentTime == ps[i].currentTime
  {
    ParseIntToString(ps[i].currentTime);
  }

  // ---------------------------------------------------------------- the invariant

  /** Consequences of the invariant: 2 to 8 players, no two alike in colour, none queued again. */
  lemma ConsistentBounds(ps: seq<Player>, queue: seq<Color>)
    requires Consistent(ps, queue)
    ensures 2 <= |ps| && |ps| + |queue| <= 8
    ensures forall i, j :: 0 <= i < j < |ps| ==> ps[i].color != ps[j].color
    ensures forall i :: 0 <= i < |ps| ==> ps[i].color !in queue
  {
    var all := ColorsOf(ps) + queue;
    NoRepeatsInPalette(multiset(all));
    assert |multiset(all)| == |all|;
    forall i, j | 0 <= i < j < |ps| ensures ps[i].color != ps[j].color {
      if ps[i].color == ps[j].color {
        assert all[i] == all[j];
        TwiceInSeq(all, i, j);
        assert false;
      }
    }
    forall i | 0 <= i < |ps| ensures ps[i].color !in queue {
      if ps[i].color in queue {
        var k :| 0 <= k < |queue| && queue[k] == ps[i].color;
        assert all[i] == all[|ps| + k];
        TwiceInSeq(all, i, |ps| + k);
        assert false;
      }
    }
  }

  /** The starting roster, dealt from a fresh shuffle, satisfies the invariant. */
  lemma DefaultRosterConsistent(shuffle: seq<Color>)
    requires IsShuffle(shuffle)
    ensures Consistent(DefaultRoster(shuffle[..4]), shuffle[4..])
  {
    DistinctNoRepeats(shuffle);
    assert ColorsOf(DefaultRoster(shuffle[..4])) + shuffle[4..] == shuffle;
  }

  /** Edits that keep every player's colour in its place keep the invariant. */
  lemma SameColorsConsistent(ps: seq<Player>, qs: seq<Player>, queue: seq<Color>)
    requires Consistent(ps, queue)
    requires |qs| == |ps| && forall k :: 0 <= k < |ps| ==> qs[k].color == ps[k].color
    ensures Consistent(qs, queue)
  {
    assert ColorsOf(qs) == ColorsOf(ps);
  }

  lemma RotateConsistent(ps: seq<Player>, queue: seq<Color>)
    requires Consistent(ps, queue)
    ensures Consistent(Rotate(ps), queue)
  {
    RotateColors(ps);
    var cs, ds := ColorsOf(ps), ColorsOf(Rotate(ps));
    assert multiset(ds + queue) == multiset(ds) + multiset(queue);
    assert multiset(cs + queue) == multiset(cs) + multiset(queue);
  }

  lemma RotateColors(ps: seq<Player>)
    requires |ps| >= 1
    ensures multiset(ColorsOf(Rotate(ps))) == multiset(ColorsOf(ps))
  {
    var cs := ColorsOf(ps);
    assert ColorsOf(Rotate(ps)) == cs[1..] + [cs[0]];
    assert cs == [cs[0]] + cs[1..];
  }

  lemma SwapUpConsistent(ps: seq<Player>, i: nat, queue: seq<Color>)
    requires Consistent(ps, queue) && 0 < i < |ps|
    ensures Consistent(SwapUp(ps, i), queue)
  {
    SwapUpColors(ps, i);
    var cs, ds := ColorsOf(ps), ColorsOf(SwapUp(ps, i));
    assert multiset(ds + queue) == multiset(ds) + multiset(queue);
    assert multiset(cs + queue) == multiset(cs) + multiset(queue);
  }

  lemma SwapUpColors(ps: seq<Player>, i: nat)
    requires 0 < i < |ps|
    ensures multiset(ColorsOf(SwapUp(ps, i))) == multiset(ColorsOf(ps))
  {
    var cs := ColorsOf(ps);
    var left, right := cs[..i - 1], cs[i + 1..];
    assert cs == left + [cs[i - 1], cs[i]] + right;
    SwapUpColorsOf(ps, i);
    SwapMultiset(left, cs[i - 1], cs[i], right);
  }

  lemma SwapUpColorsOf(ps: seq<Player>, i: nat)
    requires 0 < i < |ps|
    ensures ColorsOf(SwapUp(ps, i)) == ColorsOf(ps)[..i - 1] + [ps[i].color, ps[i - 1].color] + ColorsOf(ps)[i + 1..]
  {
    var ds, es := ColorsOf(SwapUp(ps, i)), ColorsOf(ps)[..i - 1] + [ps[i].color, ps[i - 1].color] + ColorsOf(ps)[i + 1..];
    assert |ds| == |es|;
    forall k | 0 <= k < |ds| ensures ds[k] == es[k] {
      if k < i - 1 {
        assert es[k] == ColorsOf(ps)[k];
      } else if k > i {
        assert es[k] == ColorsOf(ps)[k];
      }
    }
  }

  lemma SwapMultiset<T>(left: seq<T>, a: T, b: T, right: seq<T>)
    ensures multiset(left + [a, b] + right) == multiset(left + [b, a] + right)
  {
    calc {
      multiset(left + [a, b] + right);
      multiset(left) + multiset([a, b]) + multiset(right);
      { assert multiset([a, b]) == multiset([b, a]); }
      multiset(left) + multiset([b, a]) + multiset(right);
      multiset(left + [b, a] + right);
    }
  }

  /** Removing a player keeps the invariant as long as more than two were left. */
  lemma RemoveAtConsistent(ps: seq<Player>, i: nat, queue: seq<Color>)
    requires Consistent(ps, queue) && i < |ps| && |ps| > 2
    ensures Consistent(RemoveAt(ps, i), queue)
  {
    RemoveAtColors(ps, i);
    var cs, ds := ColorsOf(ps), ColorsOf(RemoveAt(ps, i));
    assert multiset(ds + queue) == multiset(ds) + multiset(queue);
    assert multiset(cs + queue) == multiset(cs) + multiset(queue);
    NoRepeatsSub(multiset(ds + queue), multiset(cs + queue));
  }

  lemma RemoveAtColors(ps: seq<Player>, i: nat)
    requires i < |ps|
    ensures multiset(ColorsOf(RemoveAt(ps, i))) <= multiset(ColorsOf(ps))
  {
    var cs := ColorsOf(ps);
    assert cs == cs[..i] + [cs[i]] + cs[i + 1..];
    assert ColorsOf(RemoveAt(ps, i)) == cs[..i] + cs[i + 1..];
  }

  /** Appending a player coloured by the head of a non-empty queue keeps the invariant. */
  lemma WithNewPlayerConsistent(ps: seq<Player>, queue: seq<Color>)
    requires Consistent(ps, queue) && queue != []
    ensures Consistent(WithNewPlayer(ps, queue[0]), queue[1..])
  {
    var cs := ColorsOf(ps);
    assert ColorsOf(WithNewPlayer(ps, queue[0])) + queue[1..] == cs + queue;
  }
}
