/**
 * The buzzer arbiter as values: the controller's state tag, one seat per
 * player (its device and its status) and the game master's device, with
 * one function per handler. Each function follows the handler's branches
 * and guards one for one; the class in game_controller.dfy is proved to
 * update its objects exactly as these functions say.
 */
module Arbiter {
  import opened Wrappers
  import opened Players

  /**
   * What the controller is doing: configuring slot i (slot N is the game
   * master), playing with nobody answering, or player idx answering.
   */
  datatype ConfigState = ConfigSlot(i: nat) | Game | Answering(idx: nat)

  /** The two inputs the device readers deliver: Esc, or a left click from the device at `path`. */
  datatype Event = Esc | LeftClick(path: string)

  /** A player's mutable part: the bound device path and the display status. */
  datatype Seat = Seat(device: Option<string>, status: Status)

  /** The controller's whole state: the tag, the players in list order, the game master's device. */
  datatype Board = Board(state: ConfigState, seats: seq<Seat>, gmDevice: Option<string>)

  /** A device that the assigned-devices list counts: present and non-empty (Python truthiness). */
  predicate IsBound(d: Option<string>)
  {
    d.Some? && d.value != ""
  }

  /** The players' part of the assigned-devices list, in list order. */
  function PlayerDevices(seats: seq<Seat>): (r: seq<string>)
    ensures |r| <= |seats|
    ensures forall p :: p in r <==> p != "" && exists j :: 0 <= j < |seats| && seats[j].device == Some(p)
  {
    if seats == [] then []
    else
      var rest := PlayerDevices(seats[1..]);
      assert forall j :: 1 <= j < |seats| ==> seats[j] == seats[1..][j - 1];
      if IsBound(seats[0].device) then [seats[0].device.value] + rest else rest
  }

  /** Every device already bound, players first and then the game master. */
  function Assigned(seats: seq<Seat>, gmDevice: Option<string>): (r: seq<string>)
    ensures forall p :: p in r <==>
      p != "" && ((exists j :: 0 <= j < |seats| && seats[j].device == Some(p)) || gmDevice == Some(p))
  {
    PlayerDevices(seats) + (if IsBound(gmDevice) then [gmDevice.value] else [])
  }

  /** True when some player has status "answer". */
  predicate AnyAnswering(seats: seq<Seat>)
  {
    exists j :: 0 <= j < |seats| && seats[j].status == Answer
  }

  /** The first player, in list order, whose device is `path`. */
  function FirstBound(seats: seq<Seat>, path: string): (r: Option<nat>)
    ensures r.None? <==> forall j :: 0 <= j < |seats| ==> seats[j].device != Some(path)
    ensures r.Some? ==> r.value < |seats| && seats[r.value].device == Some(path)
    ensures r.Some? ==> forall j :: 0 <= j < r.value ==> seats[j].device != Some(path)
  {
    if seats == [] then None
    else if seats[0].device == Some(path) then Some(0)
    else
      match FirstBound(seats[1..], path)
      case None => None
      case Some(k) => Some(k + 1)
  }

  /** Every player's status set to None, devices kept. */
  function Cleared(seats: seq<Seat>): (r: seq<Seat>)
    ensures |r| == |seats|
    ensures forall j :: 0 <= j < |r| ==> r[j] == Seat(seats[j].device, NoStatus)
  {
    seq(|seats|, j requires 0 <= j < |seats| => seats[j].(status := NoStatus))
  }

  /**
   * The status effects of refreshing the display for state `s`: while a
   * player slot is configured only that player is "config"; while the game
   * master is configured nobody has a status; on entering answering the
   * answering player becomes "answer"; in play nothing changes.
   */
  function Refresh(s: ConfigState, seats: seq<Seat>): (r: seq<Seat>)
    requires s.Answering? ==> s.idx < |seats|
    ensures |r| == |seats|
    ensures forall j :: 0 <= j < |r| ==> r[j].device == seats[j].device
  {
    match s
    case ConfigSlot(i) =>
      if i < |seats| then
        seq(|seats|, j requires 0 <= j < |seats| =>
          seats[j].(status := if j == i then Config else NoStatus))
      else Cleared(seats)
    case Answering(k) => seats[k := seats[k].(status := Answer)]
    case Game => seats
  }

  /** Moves to state `s` and refreshes the display for it. */
  function Enter(b: Board, s: ConfigState): (r: Board)
    requires s.Answering? ==> s.idx < |b.seats|
  {
    b.(state := s, seats := Refresh(s, b.seats))
  }

  /** The state right after construction: configuring slot 0. */
  function Init(seats: seq<Seat>, gmDevice: Option<string>): (r: Board)
    ensures r.state == ConfigSlot(0) && r.gmDevice == gmDevice && |r.seats| == |seats|
    ensures forall j :: 0 <= j < |seats| ==>
      r.seats[j] == Seat(seats[j].device, if j == 0 then Config else NoStatus)
  {
    Enter(Board(ConfigSlot(0), seats, gmDevice), ConfigSlot(0))
  }

  /** Esc: skip the slot being configured, or end an answer. */
  function EscStep(b: Board): (r: Board)
    ensures SameDevices(r.seats, b.seats) && r.gmDevice == b.gmDevice
    ensures r.state.ConfigSlot? ==> b.state.ConfigSlot? && (r == b || r.state.i == b.state.i + 1)
  {
    var n := |b.seats|;
    if b.state.ConfigSlot? && b.state.i < n then
      Enter(b, ConfigSlot(b.state.i + 1))
    else if b.state.ConfigSlot? && b.state.i == n then
      Enter(b, Game)
    else if AnyAnswering(b.seats) then
      Enter(b.(seats := Cleared(b.seats)), Game)
    else
      b
  }

  /** A left click from the device at `path`: bind it, buzz, or clear the round. */
  function ClickStep(b: Board, path: string): (r: Board)
    ensures |r.seats| == |b.seats|
    ensures forall j :: 0 <= j < |b.seats| && r.seats[j].device != b.seats[j].device ==>
      b.state == ConfigSlot(j) && r.seats[j].device == Some(path)
    ensures r.gmDevice != b.gmDevice ==> b.state == ConfigSlot(|b.seats|) && r.gmDevice == Some(path)
    ensures r.state.ConfigSlot? ==> b.state.ConfigSlot? && r.state.i >= b.state.i
  {
    var n := |b.seats|;
    if b.state.ConfigSlot? && path !in Assigned(b.seats, b.gmDevice) then
      if b.state.i < n then
        var i := b.state.i;
        Enter(b.(seats := b.seats[i := b.seats[i].(device := Some(path))]), ConfigSlot(i + 1))
      else if b.state.i == n then
        Enter(b.(gmDevice := Some(path)), Game)
      else
        b
    else if !b.state.ConfigSlot? && !AnyAnswering(b.seats) then
      match FirstBound(b.seats, path)
      case Some(k) => Enter(b, Answering(k))
      case None => b
    else if AnyAnswering(b.seats) && Some(path) == b.gmDevice then
      Enter(b.(seats := Cleared(b.seats)), Game)
    else
      b
  }

  function Step(b: Board, e: Event): (r: Board)
  {
    match e
    case Esc => EscStep(b)
    case LeftClick(path) => ClickStep(b, path)
  }

  /** The board after the events `es`, delivered one at a time in order. */
  function Run(b: Board, es: seq<Event>): (r: Board)
    decreases |es|
  {
    if es == [] then b else Run(Step(b, es[0]), es[1..])
  }

  /** The status each player has in state `s`. */
  function ExpectedStatus(s: ConfigState, j: nat): Status
  {
    match s
    case ConfigSlot(i) => if j == i then Config else NoStatus
    case Game => NoStatus
    case Answering(k) => if j == k then Answer else NoStatus
  }

  /** No bound device belongs to two players. */
  predicate PlayerDevicesDistinct(seats: seq<Seat>)
  {
    forall j, k :: 0 <= j < k < |seats| && IsBound(seats[j].device) ==> seats[j].device != seats[k].device
  }

  /** No bound device belongs to two players, or to a player and the game master. */
  predicate DevicesDistinct(seats: seq<Seat>, gmDevice: Option<string>)
  {
    PlayerDevicesDistinct(seats)
    && (forall j :: 0 <= j < |seats| && IsBound(seats[j].device) ==> seats[j].device != gmDevice)
  }

  predicate NoDuplicates(s: seq<string>)
  {
    forall j, k :: 0 <= j < k < |s| ==> s[j] != s[k]
  }

  /** Same players with the same devices, whatever their statuses. */
  predicate SameDevices(a: seq<Seat>, b: seq<Seat>)
  {
    |a| == |b| && forall j :: 0 <= j < |a| ==> a[j].device == b[j].device
  }

  /**
   * The invariant: the tag is in range, the statuses are exactly the ones
   * the tag dictates, the answering player holds a device, and no device
   * is bound twice.
   */
  predicate Inv(b: Board)
  {
    var n := |b.seats|;
    (b.state.ConfigSlot? ==> b.state.i <= n)
    && (b.state.Answering? ==> b.state.idx < n && b.seats[b.state.idx].device.Some?)
    && (forall j :: 0 <= j < n ==> b.seats[j].status == ExpectedStatus(b.state, j))
    && DevicesDistinct(b.seats, b.gmDevice)
  }

  /** Esc presses and fresh-device clicks still needed to leave configuration. */
  function SetupStepsLeft(b: Board): nat
  {
    if b.state.ConfigSlot? && b.state.i <= |b.seats| then |b.seats| + 1 - b.state.i else 0
  }

  /** How many of the events `es` changed the board while it was still configuring. */
  function SetupMoves(b: Board, es: seq<Event>): nat
    decreases |es|
  {
    if es == [] then 0
    else
      var next := Step(b, es[0]);
      (if b.state.ConfigSlot? && next != b then 1 else 0) + SetupMoves(next, es[1..])
  }
}
