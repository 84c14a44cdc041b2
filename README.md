# Quiz-buzzer arbiter, modelled in Dafny

This project models the arbiter at the heart of the si-buttons quiz buzzer.
A `GameController` receives two kinds of input: Esc, and a left click from an
input device identified by its path. During setup it binds one device to each
player slot in turn and then one to the game master. Esc skips the current slot.
During play the first click from a player's device makes that player answer.
Every further click is then ignored until the game master's device or Esc ends
the round. Each player is a `Player` object with a fixed name and colour, a
device that setup binds, and a display status: none, "config" or "answer".

Files:

- `wrappers.dfy`: `Option`, standing for Python's `None` next to a present value.
- `player.dfy` (module `Players`): the `Status` datatype, the status-to-highlight
  colour mapping, and the `Player` class with its in-place updates.
- `arbiter.dfy` (module `Arbiter`): the controller as a value. A `Board` holds the
  state tag, one `Seat` (device and status) per player, and the game master's
  device. `EscStep` and `ClickStep` follow the two handlers branch by branch. Like
  the source, they test the players' statuses, not the tag. `Inv` is the
  invariant every reachable board satisfies.
- `arbiter_props.dfy` (module `ArbiterProperties`): the properties of these
  transitions.
- `game_controller.dfy` (module `Controller`): the `GameController` class. It
  holds the `Player` objects and the state tag. Its handlers update the objects
  in place with loops, and each one is proved to leave the objects exactly as
  `EscStep`/`ClickStep` prescribe and to keep `Inv`.

The source keeps the state in one field of three shapes: an integer (the slot
being configured, where slot N is the game master), the string `'game'`, or a
reference to the answering `Player`. The model uses the datatype
`ConfigSlot(i) | Game | Answering(idx)`, where `idx` is the answering player's
position in the list. The players are distinct objects, so that position
identifies the reference.

The assigned-devices list keeps a device only if it is truthy (game_controller.py:89).
An empty path is therefore never listed, and the model keeps that rule. The
no-double-binding invariant (`DevicesDistinct`) and the statement that the game
master's device cannot buzz therefore speak of non-empty paths. Device paths
from the operating system are never empty.

Three details of the code that are easy to get wrong:

- Right after construction, player 0 already has status "config". It does not
  start with no status (game_controller.py:18-19, 70-73).
- Esc on the game master's slot moves to play without touching any status.
  The statuses are already all none at that point, and `Inv` proves it.
- A buzz looks only for the first player whose device matches. It does not
  also check the game master's device. The two agree because no non-empty
  device is bound twice.

## Model

| member | source | states |
|---|---|---|
| `Players.HighlightColor` | player.py:31-36 | the square is blue exactly for "config" and green exactly for "answer" (unless the player's own colour is one of those); with no status it is the player's own colour |
| `Players.HighlightRevealsStatus` | player.py:31-36 | when the player's colour is neither blue nor green, the highlight determines the status |
| `Players.Player.constructor` | player.py:2-14 | a new player keeps the given name and colour and has no device and no status |
| `Players.Player.SetStatus` | player.py:16-30 | after writing a status, reading it gives exactly the value written; the device is unchanged |
| `Players.Player.AssignDevice` | player.py:38-44 | the device becomes the one given; the status is unchanged (name and colour are constants) |
| `Players.Player.Reset` | player.py:46-51 | afterwards the player has no device and no status |
| `Arbiter.FirstBound` | game_controller.py:56 | returns the least index whose device is the clicked path, or nothing exactly when no player holds that path |
| `Arbiter.Assigned` | game_controller.py:85-89 | a path is listed exactly when it is non-empty and held by some player or by the game master |
| `Arbiter.PlayerDevices` | game_controller.py:89 | the players' part of the list holds exactly the non-empty paths some player holds |
| `Arbiter.Cleared` | game_controller.py:36-37 | every status becomes none and every device is kept |
| `Arbiter.Init` | game_controller.py:18-19 | after construction the state is slot 0, player 0 is "config", every other player has no status, and no device changes |
| `Players.Player.Highlight` | player.py:31-36 | the colour shown after the last status write is blue, green or the player's own colour, and the own colour when there is no status |
| `Arbiter.Refresh` | game_controller.py:66-83 | refreshing the display keeps the number of players and every device; the statuses it sets are stated by `RefreshShowsState` |
| `Arbiter.EscStep` | game_controller.py:21-39 | Esc never binds or unbinds a device, and a configuring state after Esc is one slot past the one before (or unchanged); `EscDuringSetup`, `EscInPlayIgnored`, `EscEndsAnswer` and `EscPreservesInv` state the rest |
| `Arbiter.ClickStep` | game_controller.py:41-64 | a click changes a player's device only when that player's slot is being configured, and then to the clicked path; it changes the game master's device only on slot N; a configuring state never moves back; `RepeatedDeviceIgnored`, `FreshDeviceBinds`, `BuzzFirstWins`, `Lockout`, `GameMasterEndsAnswer` and `ClickPreservesInv` state the rest |
| `ArbiterProperties.RefreshShowsState` | game_controller.py:66-83 | refreshing the display gives every player the status the state tag dictates (from any statuses while configuring, from all-none on entering play or answering) |
| `ArbiterProperties.TagAgreesWithStatuses` | game_controller.py:34 | under the invariant, some player has status "answer" exactly when the tag is answering, so the status guards decide the same as the tag |
| `ArbiterProperties.AtMostOneAnswering` | game_controller.py:55-60 | under the invariant no two players have status "answer" |
| `ArbiterProperties.InitEstablishesInv` | game_controller.py:5-19 | construction from players whose devices do not clash establishes the invariant |
| `ArbiterProperties.EscPreservesInv` | game_controller.py:21-39 | Esc keeps the invariant |
| `ArbiterProperties.ClickPreservesInv` | game_controller.py:41-64 | a left click keeps the invariant, including no device bound twice |
| `ArbiterProperties.StepPreservesInv` | game_controller.py:21-64 | every event keeps the invariant |
| `ArbiterProperties.RunPreservesInv` | game_controller.py:21-64 | every sequence of events keeps the invariant |
| `ArbiterProperties.AlwaysSafe` | game_controller.py:18-89 | after any events from construction, at most one player answers and the assigned-devices list has no repeated entry |
| `ArbiterProperties.NoDuplicatesCons` | game_controller.py:89 | a list with a head has no repeats exactly when the tail has none and does not contain the head |
| `ArbiterProperties.NoDuplicatesSnoc` | game_controller.py:89 | appending the game master's device keeps the list repeat-free exactly when it was not listed yet |
| `ArbiterProperties.PlayerDevicesNoDuplicates` | game_controller.py:89 | the players' part of the list has no repeats exactly when no non-empty device is held by two players |
| `ArbiterProperties.AssignedNoDuplicates` | game_controller.py:85-89 | the assigned-devices list has no repeats exactly when no non-empty device is bound to two players or to a player and the game master |
| `ArbiterProperties.EscDuringSetup` | game_controller.py:26-33 | Esc on slot i < N moves to slot i + 1 and on slot N moves to play, binding nothing |
| `ArbiterProperties.RepeatedDeviceIgnored` | game_controller.py:46-64 | during setup a click from a device already in the assigned list leaves state, devices and statuses unchanged |
| `ArbiterProperties.FreshDeviceBinds` | game_controller.py:46-54 | during setup a click from a device not yet listed binds it to player i (or the game master at slot N), moves exactly one step, and changes no other device |
| `ArbiterProperties.SetupAdvancesOneSlot` | game_controller.py:26-54 | during setup every event either changes nothing or moves from slot i to i + 1 (from slot N to play), so the steps left drop by one |
| `ArbiterProperties.PlayNeverReturnsToSetup` | game_controller.py:32-63 | once setup is over no event returns to it |
| `ArbiterProperties.SetupMovesBounded` | game_controller.py:26-54 | over any events at most the remaining steps change the board during setup, and exactly that many if setup ends |
| `ArbiterProperties.SetupTakesNPlusOne` | game_controller.py:18-54 | from construction setup ends after exactly N + 1 effective Esc presses or fresh-device clicks, never more |
| `ArbiterProperties.BuzzFirstWins` | game_controller.py:55-59 | in play with nobody answering, a click from the device of the first player in list order holding it makes that player answer and changes nothing else |
| `ArbiterProperties.UnknownBuzzIgnored` | game_controller.py:55-57 | in play, a click from a device no player holds changes nothing |
| `ArbiterProperties.GameMasterBuzzIgnored` | game_controller.py:55-57 | in play, a click from the game master's non-empty device changes nothing |
| `ArbiterProperties.EscInPlayIgnored` | game_controller.py:34-39 | Esc in play with nobody answering changes nothing |
| `ArbiterProperties.Lockout` | game_controller.py:55-64 | while a player answers, a click from any device but the game master's changes nothing |
| `ArbiterProperties.LockoutHolds` | game_controller.py:55-64 | no sequence of clicks avoiding the game master's device changes an answering board |
| `ArbiterProperties.EscEndsAnswer` | game_controller.py:34-39 | Esc while a player answers returns to play with every status none and the devices kept |
| `ArbiterProperties.GameMasterEndsAnswer` | game_controller.py:60-64 | a click from the game master's device while a player answers returns to play with every status none and the devices kept |
| `ArbiterProperties.ThreePlayerGame` | game_controller.py:21-64 | a whole three-player game: bind, skip twice, bind the game master, buzz, lockout, reset |
| `Controller.GameController.constructor` | game_controller.py:5-19 | the controller starts in the state `Init` gives and satisfies the invariant |
| `Controller.GameController.AssignedDevices` | game_controller.py:85-89 | lists exactly the non-empty paths held by some player object or the game master object |
| `Controller.GameController.ClearStatuses` | game_controller.py:61-62 | sets every player object's status to none and keeps the devices |
| `Controller.GameController.UpdateForState` | game_controller.py:66-83 | updates the player objects' statuses exactly as `Refresh` prescribes for the current state |
| `Controller.GameController.EndRound` | game_controller.py:36-39 | clears every status and returns to play |
| `Controller.GameController.BindToCurrentSlot` | game_controller.py:47-54 | binds the device to the slot being configured and advances, as `ClickStep` prescribes, leaving the game master's status as it was |
| `Controller.GameController.HandleEscPressed` | game_controller.py:21-39 | updates the objects exactly as `EscStep` prescribes and keeps the invariant; it does not touch the game master |
| `Controller.GameController.HandleLeftClick` | game_controller.py:41-64 | updates the objects exactly as `ClickStep` prescribes, keeps the invariant, and leaves the game master's status as it was |

## Left out

- The label texts (game_controller.py:71, 75, 79, 83), the `print` calls (lines 25 and 45) and the sound played on a buzz (line 80). These are presentation and foreign audio calls. The model assumes `playsound` returns normally. If it raised, line 81 would not run: the state would hold the player while no status is "answer", and the status-based lockout guard at line 55 would stay off.
- The `ui_square` the status setter repaints. Only the pure status-to-colour mapping is modelled (`HighlightColor`, and `Player.Highlight` for the colour shown after the last status write); the square's colour before any status write is up to the window toolkit.
- The `game_ui` and `device_manager` constructor arguments of `GameController`, the device name in the log line, and `Player.ui_square`: the controller only stores them.
- device_manager.py (device enumeration, one thread per device, blocking reads), game_ui.py (window, label, cursor warp), commands.py (forwarding wrappers) and app.py (wiring, periodic loop). These are I/O and concurrency. device_manager.py:40 starts one daemon thread per device, and device_manager.py:50-54 calls every handler directly from that thread, with no lock or queue. The model assumes each handler call finishes before the next starts; the source does not enforce this. Two overlapping `handle_left_click` calls can both pass the status guard at game_controller.py:55 before either reaches line 81, so `AtMostOneAnswering`, `Lockout`, `LockoutHolds` and `AlwaysSafe` hold only for calls that do not overlap.
- Statuses other than none, "config" and "answer", and devices other than a path string: the source never writes any.
- Controller.GameController.constructor: requires the players to be distinct objects and the game master not to be one of them, as a caller such as app.py intends; the source does not check this. It also requires that no non-empty device is bound twice among the objects it receives; freshly built players, as a caller such as app.py intends to pass them, hold no device.
- ArbiterProperties.GameMasterBuzzIgnored: assumes a non-empty path, because the assigned-devices list skips empty paths and so an empty path may be held by a player and the game master at once.
