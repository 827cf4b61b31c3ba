# Turn timer: a verified model of the clock and roster state machine

The app is a board-game turn timer. A screen holds an ordered roster of
players, each with a name, a countdown clock, the duration that clock resets
to, and a colour. The player at the front of the roster is the active player.
While the timer runs, the active player's clock loses one second per second
and may go below zero. The big button passes the turn: the active player
goes to the back of the roster. Settings edits can rename a player, change a
player's duration, move a player up, delete a player (never below two), and
add a "New Player". Colours are dealt without replacement from a shuffled
queue of eight palette colours.

The model has five modules:

- `Decimal`: `Int.toString()` and `String.toIntOrNull()` as the duration text field uses them.
- `ClockFormat`: `Player.timeString()`, with Kotlin's truncating `/` and `%` and `%02d` written out.
- `Colors`: the palette, the shuffled colour queue and `getAvailableColor`, as a pure `Draw`.
- `Roster`: the `Player` value, one pure list transform per command, and the invariant `Consistent`.
  The invariant says the roster has at least two players and no colour occurs twice among the
  roster's colours and the queue.
- `Engine`: the class `TurnTimerEngine`. It has the screen's mutable state (`players`,
  `isRunning`, `availableColors`) and one method per event handler. Each command method:
  - keeps `Valid()`, which is the `Consistent` invariant;
  - states its new state: as the matching `Roster` function of the old state for the
    roster commands, as the flipped flag for `TogglePlay`.

  `NextButtonCaption` changes nothing and states the button's text. `GetAvailableColor`
  is a step inside the add button and the start, not a command of its own. Called alone
  on an empty queue it refills the queue with a fresh shuffle, which may repeat colours
  already in the roster, so it does not keep `Valid()`. `AddPlayer` only calls it while
  colours remain queued, and there it does keep the invariant.

Three behaviours of the app are worth stating explicitly:

- Players are addressed by list position, not by a stable id.
- `timeString` takes the sign into both fields, because Kotlin's `/` and `%` truncate toward zero.
  So -5 seconds shows as "00:-5" and -65 as "-1:-5". It does not show a magnitude.
- Clocks have no floor at zero.

## Model

| member | source | states |
|---|---|---|
| Decimal.Digits | app/src/main/java/com/example/turntimer/MainActivity.kt:371 | the digit string of a number is non-empty, all digits, one character exactly below ten, and has no leading zero except for 0 itself |
| Decimal.IntToString | app/src/main/java/com/example/turntimer/MainActivity.kt:371 | the text of a clock value is its canonical decimal: a non-negative value is digits with no leading zero except for 0 itself, a negative one is '-' followed by such digits with no zero after the sign; never a '+' and never padding |
| Decimal.ParseInt | app/src/main/java/com/example/turntimer/MainActivity.kt:374-375 | toIntOrNull accepts exactly the non-empty digit strings and a '+' or '-' followed by a non-empty digit string; everything else gives no number |
| Decimal.ParseIntOrZeroDigits | app/src/main/java/com/example/turntimer/MainActivity.kt:374-375 | any non-empty digit string, leading zeros included, reads as its value, also behind a '+', and negated behind a '-' |
| Decimal.ParseIntToString | app/src/main/java/com/example/turntimer/MainActivity.kt:371-375 | round trip: reading back the text toString() shows gives the same number, for every integer, negative ones included |
| Decimal.ParseIntOrZeroRejects | app/src/main/java/com/example/turntimer/MainActivity.kt:374-375 | text holding a non-digit anywhere other than a leading sign counts as 0 |
| Decimal.ParseIntOrZeroExamples | app/src/main/java/com/example/turntimer/MainActivity.kt:374-375 | "120", "-7", "+42" and "007" parse to their numbers; "", "-", "+" and "12a" give 0 |
| ClockFormat.Minutes | app/src/main/java/com/example/turntimer/MainActivity.kt:82 | the quotient truncates toward zero: for t >= 0 it is the floor of t/60, for t < 0 the ceiling |
| ClockFormat.Seconds | app/src/main/java/com/example/turntimer/MainActivity.kt:83 | minutes * 60 + seconds == t, seconds in [0, 60) for t >= 0 and in (-60, 0] for t < 0 |
| ClockFormat.Pad2 | app/src/main/java/com/example/turntimer/MainActivity.kt:84 | `%02d`: at least two characters, exactly two from -9 to 99, a leading '-' exactly for negatives; a non-negative value is digits denoting it, zero-padded only up to two characters, a negative one is '-' and then the digits of its magnitude with no padding zero |
| ClockFormat.Pad2ReadsBack | app/src/main/java/com/example/turntimer/MainActivity.kt:84 | every field, whatever its sign, reads back as the number it shows |
| ClockFormat.Pad2NoColon | app/src/main/java/com/example/turntimer/MainActivity.kt:84 | no field contains a colon |
| ClockFormat.TimeString | app/src/main/java/com/example/turntimer/MainActivity.kt:81-85 | the text of a clock is at least five characters long |
| ClockFormat.TimeStringFields | app/src/main/java/com/example/turntimer/MainActivity.kt:81-85 | for every clock, the text's only colon separates a minutes field and a seconds field; these read back as the truncated quotient and remainder, and minutes * 60 + seconds is the clock |
| ClockFormat.TimeStringRoundTrip | app/src/main/java/com/example/turntimer/MainActivity.kt:81-85 | for a clock at or above zero the "mm:ss" text determines the clock: reading minutes and seconds back gives t |
| ClockFormat.TimeStringShape | app/src/main/java/com/example/turntimer/MainActivity.kt:81-85 | below 100 minutes the text is five characters, digits around a colon at position 2 |
| ClockFormat.TimeStringNegative | app/src/main/java/com/example/turntimer/MainActivity.kt:81-85 | a clock below zero shows a leading '-' exactly from -60 on, and a '-' after the colon exactly when the seconds field is negative; behind each '-' come the digits of (-t) / 60 and of (-t) % 60 |
| ClockFormat.TimeString905 | app/src/main/java/com/example/turntimer/MainActivity.kt:81-85 | 905 seconds display as "15:05" |
| ClockFormat.TimeString59 | app/src/main/java/com/example/turntimer/MainActivity.kt:81-85 | 59 seconds display as "00:59" |
| ClockFormat.TimeStringBelowZero | app/src/main/java/com/example/turntimer/MainActivity.kt:81-85 | -5 seconds display as "00:-5" and -65 as "-1:-5" |
| Colors.Argb | app/src/main/java/com/example/turntimer/MainActivity.kt:64-73 | every palette colour is an opaque 32-bit ARGB value |
| Colors.ArgbInjective | app/src/main/java/com/example/turntimer/MainActivity.kt:64-73 | the eight niceColors are pairwise different, so a palette index and its ARGB value determine each other |
| Colors.IsShuffle | app/src/main/java/com/example/turntimer/MainActivity.kt:140-141 | what `niceColors.shuffled()` may return: the eight palette colours, each once, in some order |
| Colors.ShuffleIsPermutation | app/src/main/java/com/example/turntimer/MainActivity.kt:140-142 | a shuffle of niceColors holds every one of the eight colours exactly once |
| Colors.Draw | app/src/main/java/com/example/turntimer/MainActivity.kt:148-154 | the colour dealt followed by the queue left is the old queue, or a whole fresh shuffle when the queue was empty |
| Colors.DrawWithoutReplacement | app/src/main/java/com/example/turntimer/MainActivity.kt:148-154 | dealing loses and invents no colour; a non-empty queue is dealt from without reshuffling |
| Roster.Player | app/src/main/java/com/example/turntimer/MainActivity.kt:80-90 | a player is a name, the current clock, the duration it resets to, and a colour; `copy` is Dafny's datatype update |
| Roster.Player.TimeString | app/src/main/java/com/example/turntimer/MainActivity.kt:80-85 | a player's displayed clock reads back to the clock while it is not below zero |
| Roster.DefaultRoster | app/src/main/java/com/example/turntimer/MainActivity.kt:156-161 | four players, Hannah, Tim, Rachel and Ryan in that order, with both clocks at 900 and the four colours dealt, in order |
| Roster.DecrementActive | app/src/main/java/com/example/turntimer/MainActivity.kt:196-202 | one tick takes one second off the active clock and leaves its other fields and every other player unchanged |
| Roster.CountdownActiveOnly | app/src/main/java/com/example/turntimer/MainActivity.kt:196-202 | n running seconds take exactly n off the active clock and change nothing else |
| Roster.CountdownPastZero | app/src/main/java/com/example/turntimer/MainActivity.kt:196-202 | a clock at 10 reads 0 after ten ticks and -1 after eleven: there is no floor |
| Roster.ResetAll | app/src/main/java/com/example/turntimer/MainActivity.kt:217-219 | every clock is back at its player's duration; names, durations, colours and order are kept |
| Roster.ResetAllIdempotent | app/src/main/java/com/example/turntimer/MainActivity.kt:217-219 | resetting twice is resetting once |
| Roster.ResetAllAfterCountdown | app/src/main/java/com/example/turntimer/MainActivity.kt:217-219 | a reset undoes any amount of running time |
| Roster.Rotate | app/src/main/java/com/example/turntimer/MainActivity.kt:244 | passing the turn is a permutation: the active player goes last and everyone else moves up one place |
| Roster.Advance | app/src/main/java/com/example/turntimer/MainActivity.kt:240-249 | NEXT while running makes the second player active; UNPAUSE keeps the roster as it is |
| Roster.RotationsSplit | app/src/main/java/com/example/turntimer/MainActivity.kt:244 | after n turns the roster reads from position n round to position n - 1 |
| Roster.TurnOrder | app/src/main/java/com/example/turntimer/MainActivity.kt:244 | successive turns make every player active once, in roster order, and a full round restores the order |
| Roster.SwapUp | app/src/main/java/com/example/turntimer/MainActivity.kt:362 | moving player i up exchanges players i - 1 and i and keeps everyone else in place; it is a permutation |
| Roster.SwapUpInPlace | app/src/main/java/com/example/turntimer/MainActivity.kt:362 | the take/drop expression equals swapping the two entries in place, and moving up twice restores the order |
| Roster.RemoveAt | app/src/main/java/com/example/turntimer/MainActivity.kt:384 | deleting player i removes exactly that player; those after it move up one place |
| Roster.WithNewPlayer | app/src/main/java/com/example/turntimer/MainActivity.kt:273 | the roster gains one player at the end, named "New Player", whose clocks are the active player's duration and whose colour is the one dealt |
| Roster.Renamed | app/src/main/java/com/example/turntimer/MainActivity.kt:366-369 | only player i's name changes |
| Roster.WithDuration | app/src/main/java/com/example/turntimer/MainActivity.kt:371-377 | player i's duration and clock both become the parsed text (0 when it is not a number); nothing else changes |
| Roster.DurationEditExample | app/src/main/java/com/example/turntimer/MainActivity.kt:371-377 | typing 120 over a clock at 45 sets both that player's clock and duration to 120 |
| Roster.DurationEditUnchangedText | app/src/main/java/com/example/turntimer/MainActivity.kt:371-377 | accepting the field's text as shown makes the current clock value the new duration |
| Roster.ConsistentBounds | app/src/main/java/com/example/turntimer/MainActivity.kt:269-274 | under the invariant there are 2 to 8 players, no two share a colour, and no roster colour is still queued |
| Roster.DefaultRosterConsistent | app/src/main/java/com/example/turntimer/MainActivity.kt:156-161 | the starting four players dealt from a fresh shuffle satisfy the invariant |
| Roster.SameColorsConsistent | app/src/main/java/com/example/turntimer/MainActivity.kt:366-377 | edits that keep every colour in place (tick, reset, rename, duration) keep the invariant |
| Roster.RotateConsistent | app/src/main/java/com/example/turntimer/MainActivity.kt:244 | passing the turn keeps the invariant |
| Roster.SwapUpConsistent | app/src/main/java/com/example/turntimer/MainActivity.kt:357-363 | moving a player up keeps the invariant |
| Roster.RemoveAtConsistent | app/src/main/java/com/example/turntimer/MainActivity.kt:379-385 | deleting while more than two players remain keeps the invariant |
| Roster.WithNewPlayerConsistent | app/src/main/java/com/example/turntimer/MainActivity.kt:269-274 | adding a player coloured by the head of a non-empty queue keeps the invariant |
| Engine.TurnTimerEngine.constructor | app/src/main/java/com/example/turntimer/MainActivity.kt:156-167 | the screen starts paused with Hannah, Tim, Rachel and Ryan at 900 seconds, coloured by the first four colours of the shuffle; the other four stay queued; the invariant holds |
| Engine.TurnTimerEngine.GetAvailableColor | app/src/main/java/com/example/turntimer/MainActivity.kt:148-154 | the colour returned followed by the new queue is the old queue, or the fresh shuffle when the queue was empty |
| Engine.TurnTimerEngine.Tick | app/src/main/java/com/example/turntimer/MainActivity.kt:196-202 | while running the roster becomes DecrementActive of the old one; while paused nothing changes; the invariant is kept |
| Engine.TurnTimerEngine.TogglePlay | app/src/main/java/com/example/turntimer/MainActivity.kt:222-227 | the running flag flips, nothing else changes, and the invariant is kept |
| Engine.TurnTimerEngine.NextOrUnpause | app/src/main/java/com/example/turntimer/MainActivity.kt:240-249 | the roster becomes Advance of the old roster and old running flag; the timer runs afterwards; the invariant is kept |
| Engine.TurnTimerEngine.NextButtonCaption | app/src/main/java/com/example/turntimer/MainActivity.kt:254-262 | the button reads NEXT while running and UNPAUSE while paused, naming the player who is active once it is pressed |
| Engine.TurnTimerEngine.ResetAll | app/src/main/java/com/example/turntimer/MainActivity.kt:217-219 | the roster becomes Roster.ResetAll of the old one; the invariant is kept |
| Engine.TurnTimerEngine.AddPlayer | app/src/main/java/com/example/turntimer/MainActivity.kt:269-274 | a player is added exactly when colours remain queued; the new player takes the head of the queue; otherwise nothing changes; the invariant is kept |
| Engine.TurnTimerEngine.MoveUp | app/src/main/java/com/example/turntimer/MainActivity.kt:357-363 | the move happens exactly for players other than the first and is SwapUp; otherwise nothing changes; the invariant is kept |
| Engine.TurnTimerEngine.Rename | app/src/main/java/com/example/turntimer/MainActivity.kt:366-370 | the roster becomes Renamed of the old one; the invariant is kept |
| Engine.TurnTimerEngine.SetDuration | app/src/main/java/com/example/turntimer/MainActivity.kt:371-378 | the roster becomes WithDuration of the old one; the invariant is kept |
| Engine.TurnTimerEngine.DeletePlayer | app/src/main/java/com/example/turntimer/MainActivity.kt:379-385 | a deletion happens exactly when more than two players remain and is RemoveAt; otherwise nothing changes; the invariant is kept |
| Engine.ScenarioDeletes | app/src/main/java/com/example/turntimer/MainActivity.kt:379-385 | from the starting roster, deleting the first player twice leaves Rachel and Ryan; a third deletion is refused at two players; after a reset both clocks read 900 |
| Engine.ScenarioTurns | app/src/main/java/com/example/turntimer/MainActivity.kt:196-249 | from a paused screen, unpause, one tick and NEXT make the second player active and leave the first last, one second down |

## Left out

- The Compose UI is not modelled: layout, fonts, icons, animations, the status bar, and the colour interpolation and `darken` arithmetic, which are floating point.
- `EverySecond` is not modelled. It is a coroutine that calls the tick handler once a second; `Tick` is that handler, and its caller and the one-second delay are outside the model.
- `updateAvailableColors` uses `shuffled()`, which is a source of randomness. The shuffle is therefore a parameter that must be a permutation of the palette (`IsShuffle`).
- A colour is modelled as its index into `niceColors`; `Colors.Argb` maps it back to the ARGB value.
- The `isEditingSettings` mode is not modelled. The settings controls are only shown in that mode, but the methods accept edits at any time, so the model allows a superset of the app's event sequences (`Engine.TurnTimerEngine.TogglePlay` and `Engine.TurnTimerEngine.NextOrUnpause` also leave out clearing the flag).
- Engine.TurnTimerEngine.ResetAll: the reset button is only shown while paused. The model allows it at any time, again a superset.
- `availableColors` is a process-wide variable that outlives a recreated screen. The constructor models a fresh process, with the whole shuffle queued. Distinct colours are therefore promised only from a fresh process. When the screen is recreated with two colours left in the queue, the new starting roster takes those two, then refills the queue and takes two from a fresh shuffle, which can repeat them.
- Decimal.ParseInt: the 32-bit overflow of `toIntOrNull` (text beyond Int's range gives null) and non-ASCII Unicode digits are not modelled; integers are unbounded.
- Decimal.IntToString: Int's range is not modelled.
- Roster.DecrementActive: Kotlin's `currentTime - 1` wraps from Int.MIN_VALUE to Int.MAX_VALUE, and the model's unbounded subtraction does not. A clock reaches that value when "-2147483648" is typed into the duration field and the clock then ticks. The same holds for Roster.Countdown, Engine.TurnTimerEngine.Tick and, through the parsed text, Roster.WithDuration.
- ClockFormat.Pad2: the locale that `String.format` uses is not modelled; the digits are ASCII.
- The `Player` class has mutable fields. The screen only ever replaces players by `copy()`, so `Player` is a value here. The display-only `isActive` test compares references and is left out.
