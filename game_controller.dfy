/**
 * The controller object: it owns the state tag and drives the Player
 * objects it was given. Each handler updates the objects in place and is
 * proved to leave them exactly as the matching Arbiter function says.
 */
module Controller {
  import opened Wrappers
  import opened Players
  import opened Arbiter
  import opened ArbiterProperties

  /** The devices and statuses of `ps`, in list order. */
  function SeatsOf(ps: seq<Player>): (r: seq<Seat>)
    reads ps
    ensures |r| == |ps|
    ensures forall j :: 0 <= j < |ps| ==> r[j] == Seat(ps[j].device, ps[j].status)
  {
    seq(|ps|, j reads ps requires 0 <= j < |ps| => Seat(ps[j].device, ps[j].status))
  }

  class GameController {
    const players: seq<Player>
    const gm: Player
    var state: ConfigState

    /** The players are distinct objects and the game master is not one of them. */
    ghost predicate Separate()
    {
      (forall j, k :: 0 <= j < k < |players| ==> players[j] != players[k]) && gm !in players
    }

    /** Each player's device and status, in list order. */
    function Seats(): (r: seq<Seat>)
      reads players
    {
      SeatsOf(players)
    }

    /** The controller's whole state as a value. */
    function Snap(): (r: Board)
      reads this, players, gm
    {
      Board(state, Seats(), gm.device)
    }

    ghost predicate Valid()
      reads this, players, gm
    {
      Separate() && Inv(Snap())
    }

    /**
     * Takes the players and the game master and starts configuring slot 0.
     * The devices the objects already hold must not clash (new players hold none).
     */
    constructor (players: seq<Player>, gm: Player)
      requires (forall j, k :: 0 <= j < k < |players| ==> players[j] != players[k]) && gm !in players
      requires DevicesDistinct(SeatsOf(players), gm.device)
      modifies players
      ensures this.players == players && this.gm == gm
      ensures Valid()
      ensures Snap() == Init(old(SeatsOf(players)), old(gm.device))
    {
      this.players := players;
      this.gm := gm;
      state := ConfigSlot(0);
      new;
      ghost var before := Board(ConfigSlot(0), Seats(), gm.device);
      UpdateForState();
      assert Snap() == Enter(before, ConfigSlot(0));
      InitEstablishesInv(before.seats, before.gmDevice);
    }

    /** The devices already bound: the players' in list order, then the game master's. */
    function AssignedDevices(): (r: seq<string>)
      reads this, players, gm
      ensures forall p :: p in r <==>
        p != "" && ((exists j :: 0 <= j < |players| && players[j].device == Some(p)) || gm.device == Some(p))
    {
      Assigned(Seats(), gm.device)
    }

    /** Sets every player's status to None. */
    method ClearStatuses()
      requires Separate()
      modifies players
      ensures Seats() == Cleared(old(Seats()))
    {
      var j := 0;
      while j < |players|
        invariant 0 <= j <= |players|
        invariant forall k :: 0 <= k < |players| ==> players[k].device == old(players[k].device)
        invariant forall k :: 0 <= k < j ==> players[k].status == NoStatus
      {
        players[j].SetStatus(NoStatus);
        j := j + 1;
      }
    }

    /** Refreshes the players' statuses for the current state. */
    method UpdateForState()
      requires Separate()
      requires state.Answering? ==> state.idx < |players|
      modifies players
      ensures Seats() == Refresh(state, old(Seats()))
    {
      match state
      case ConfigSlot(i) =>
        if i < |players| {
          var j := 0;
          while j < |players|
            invariant 0 <= j <= |players|
            invariant forall k :: 0 <= k < |players| ==> players[k].device == old(players[k].device)
            invariant forall k :: 0 <= k < j ==> players[k].status == (if k == i then Config else NoStatus)
          {
            players[j].SetStatus(if j == i then Config else NoStatus);
            j := j + 1;
          }
        } else {
          ClearStatuses();
        }
      case Answering(k) =>
        players[k].SetStatus(Answer);
      case Game =>
    }

    /** Ends an answer: every status None, back to play. */
    method EndRound()
      requires Separate()
      modifies this, players
      ensures Snap() == Enter(old(Snap()).(seats := Cleared(old(Snap()).seats)), Game)
    {
      ClearStatuses();
      state := Game;
      UpdateForState();
    }

    /** Binds a device not yet assigned to the slot being configured and moves one slot on. */
    method BindToCurrentSlot(path: string)
      requires Separate() && state.ConfigSlot?
      requires path !in Assigned(Seats(), gm.device)
      modifies this, players, gm
      ensures Snap() == ClickStep(old(Snap()), path)
      ensures gm.status == old(gm.status)
    {
      ghost var before := Snap();
      var i := state.i;
      if i < |players| {
        ghost var bound := before.(seats := before.seats[i := before.seats[i].(device := Some(path))]);
        players[i].AssignDevice(Some(path));
        assert Seats() == bound.seats;
        state := ConfigSlot(i + 1);
        UpdateForState();
      } else if i == |players| {
        gm.AssignDevice(Some(path));
        assert Seats() == before.seats;
        state := Game;
        UpdateForState();
      }
    }

    /** Esc: skip the slot being configured, or end an answer. */
    method HandleEscPressed()
      requires Valid()
      modifies this, players
      ensures Valid()
      ensures Snap() == EscStep(old(Snap()))
    {
      ghost var before := Snap();
      if state.ConfigSlot? && state.i < |players| {
        state := ConfigSlot(state.i + 1);
        UpdateForState();
      } else if state.ConfigSlot? && state.i == |players| {
        state := Game;
        UpdateForState();
      } else if AnyAnswering(Seats()) {
        EndRound();
      }
      EscPreservesInv(before);
    }

    /** A left click from the device at `path`: bind it, buzz, or clear the round. */
    method HandleLeftClick(path: string)
      requires Valid()
      modifies this, players, gm
      ensures Valid()
      ensures Snap() == ClickStep(old(Snap()), path)
      ensures gm.status == old(gm.status)
    {
      ghost var before := Snap();
      if state.ConfigSlot? && path !in AssignedDevices() {
        BindToCurrentSlot(path);
      } else if !state.ConfigSlot? && !AnyAnswering(Seats()) {
        var found := FirstBound(Seats(), path);
        if found.Some? {
          state := Answering(found.value);
          UpdateForState();
        }
      } else if AnyAnswering(Seats()) && Some(path) == gm.device {
        EndRound();
      }
      ClickPreservesInv(before, path);
    }
  }
}
