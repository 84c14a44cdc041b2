/**
 * What the arbiter guarantees: the invariant every event keeps, the setup
 * rules, first-buzz-wins, the lockout and the round reset.
 */
module ArbiterProperties {
  import opened Wrappers
  import opened Players
  import opened Arbiter

  // ---------------------------------------------------------------------
  // The tag and the statuses agree

  /** Under the invariant, somebody has status "answer" exactly when the tag says answering. */
  lemma TagAgreesWithStatuses(b: Board)
    requires Inv(b)
    ensures AnyAnswering(b.seats) <==> b.state.Answering?
  {
    if b.state.Answering? {
      assert b.seats[b.state.idx].status == Answer;
    }
  }

  /** At most one player has status "answer". */
  lemma AtMostOneAnswering(b: Board)
    requires Inv(b)
    ensures forall j, k :: 0 <= j < k < |b.seats| ==> !(b.seats[j].status == Answer && b.seats[k].status == Answer)
  {
  }

  /**
   * Refreshing the display leaves every status as the state dictates: from
   * any statuses while configuring, and from a board where nobody has a
   * status on entering play or answering.
   */
  lemma RefreshShowsState(s: ConfigState, seats: seq<Seat>)
    requires s.Answering? ==> s.idx < |seats|
    requires !s.ConfigSlot? ==> forall j :: 0 <= j < |seats| ==> seats[j].status == NoStatus
    ensures forall j :: 0 <= j < |seats| ==> Refresh(s, seats)[j].status == ExpectedStatus(s, j)
  {
  }

  // ---------------------------------------------------------------------
  // The invariant holds from construction on

  /** Right after construction only player 0 is being configured, and the invariant holds. */
  lemma InitEstablishesInv(seats: seq<Seat>, gmDevice: Option<string>)
    requires DevicesDistinct(seats, gmDevice)
    ensures Inv(Init(seats, gmDevice))
  {
  }

  lemma EscPreservesInv(b: Board)
    requires Inv(b)
    ensures Inv(EscStep(b))
  {
    TagAgreesWithStatuses(b);
  }

  lemma ClickPreservesInv(b: Board, path: string)
    requires Inv(b)
    ensures Inv(ClickStep(b, path))
  {
    TagAgreesWithStatuses(b);
    var n := |b.seats|;
    if b.state.ConfigSlot? && path !in Assigned(b.seats, b.gmDevice) && b.state.i < n {
      var i := b.state.i;
      var seats' := b.seats[i := b.seats[i].(device := Some(path))];
      forall j | 0 <= j < n && j != i && IsBound(b.seats[j].device)
        ensures b.seats[j].device != Some(path)
      {
      }
      assert DevicesDistinct(seats', b.gmDevice);
    }
  }

  lemma StepPreservesInv(b: Board, e: Event)
    requires Inv(b)
    ensures Inv(Step(b, e))
  {
    match e
    case Esc => EscPreservesInv(b);
    case LeftClick(path) => ClickPreservesInv(b, path);
  }

  lemma {:induction false} RunPreservesInv(b: Board, es: seq<Event>)
    requires Inv(b)
    ensures Inv(Run(b, es))
    decreases |es|
  {
    if es != [] {
      StepPreservesInv(b, es[0]);
      RunPreservesInv(Step(b, es[0]), es[1..]);
    }
  }

  /** Whatever events arrive after construction, at most one player is answering and no device is bound twice. */
  lemma AlwaysSafe(seats: seq<Seat>, gmDevice: Option<string>, es: seq<Event>)
    requires DevicesDistinct(seats, gmDevice)
    ensures var b := Run(Init(seats, gmDevice), es);
      Inv(b) && NoDuplicates(Assigned(b.seats, b.gmDevice))
  {
    InitEstablishesInv(seats, gmDevice);
    var b := Run(Init(seats, gmDevice), es);
    RunPreservesInv(Init(seats, gmDevice), es);
    AtMostOneAnswering(b);
    AssignedNoDuplicates(b.seats, b.gmDevice);
  }

  // ---------------------------------------------------------------------
  // The assigned-devices list never repeats a device

  lemma NoDuplicatesCons(x: string, r: seq<string>)
    ensures NoDuplicates([x] + r) <==> x !in r && NoDuplicates(r)
  {
    var s := [x] + r;
    if x !in r && NoDuplicates(r) {
      forall j, k | 0 <= j < k < |s| ensures s[j] != s[k] {
        if j == 0 { assert s[k] == r[k - 1]; } else { assert s[j] == r[j - 1] && s[k] == r[k - 1]; }
      }
    }
    if NoDuplicates(s) {
      forall j, k | 0 <= j < k < |r| ensures r[j] != r[k] {
        assert r[j] == s[j + 1] && r[k] == s[k + 1];
      }
    }
    if x in r {
      var k :| 0 <= k < |r| && r[k] == x;
      assert s[0] == x && s[k + 1] == x;
    }
  }

  lemma NoDuplicatesSnoc(r: seq<string>, x: string)
    ensures NoDuplicates(r + [x]) <==> x !in r && NoDuplicates(r)
  {
    var s := r + [x];
    if NoDuplicates(s) {
      forall j, k | 0 <= j < k < |r| ensures r[j] != r[k] {
        assert r[j] == s[j] && r[k] == s[k];
      }
    }
    if x in r {
      var k :| 0 <= k < |r| && r[k] == x;
      assert s[k] == x && s[|r|] == x;
    }
    if x !in r && NoDuplicates(r) {
      forall j, k | 0 <= j < k < |s| ensures s[j] != s[k] {
        assert s[j] == r[j];
        if k < |r| { assert s[k] == r[k]; }
      }
    }
  }

  lemma {:induction false} PlayerDevicesNoDuplicates(seats: seq<Seat>)
    ensures NoDuplicates(PlayerDevices(seats)) <==> PlayerDevicesDistinct(seats)
    decreases |seats|
  {
    if seats != [] {
      var t := seats[1..];
      PlayerDevicesNoDuplicates(t);
      var d := seats[0].device;
      // The head's device clashes with a later one exactly when it is listed in the tail's list.
      assert (IsBound(d) && d.value in PlayerDevices(t)) <==>
        (IsBound(d) && exists k :: 1 <= k < |seats| && seats[k].device == d) by {
        if IsBound(d) && d.value in PlayerDevices(t) {
          var k :| 0 <= k < |t| && t[k].device == Some(d.value);
          assert seats[k + 1].device == d;
        }
        if IsBound(d) && exists k :: 1 <= k < |seats| && seats[k].device == d {
          var k :| 1 <= k < |seats| && seats[k].device == d;
          assert t[k - 1].device == d;
        }
      }
      assert PlayerDevicesDistinct(seats) <==>
        PlayerDevicesDistinct(t) && !(IsBound(d) && exists k :: 1 <= k < |seats| && seats[k].device == d) by {
        if PlayerDevicesDistinct(seats) {
          forall j, k | 0 <= j < k < |t| && IsBound(t[j].device) ensures t[j].device != t[k].device {
            assert t[j] == seats[j + 1] && t[k] == seats[k + 1];
          }
        }
        if PlayerDevicesDistinct(t) && !(IsBound(d) && exists k :: 1 <= k < |seats| && seats[k].device == d) {
          forall j, k | 0 <= j < k < |seats| && IsBound(seats[j].device) ensures seats[j].device != seats[k].device {
            if j > 0 { assert seats[j] == t[j - 1] && seats[k] == t[k - 1]; }
          }
        }
      }
      if IsBound(d) {
        NoDuplicatesCons(d.value, PlayerDevices(t));
      }
    }
  }

  /**
   * The list of assigned devices has no repeated entry exactly when no
   * bound device belongs to two players or to a player and the game master.
   */
  lemma AssignedNoDuplicates(seats: seq<Seat>, gmDevice: Option<string>)
    ensures NoDuplicates(Assigned(seats, gmDevice)) <==> DevicesDistinct(seats, gmDevice)
  {
    PlayerDevicesNoDuplicates(seats);
    if IsBound(gmDevice) {
      NoDuplicatesSnoc(PlayerDevices(seats), gmDevice.value);
    } else {
      assert Assigned(seats, gmDevice) == PlayerDevices(seats);
    }
  }

  // ---------------------------------------------------------------------
  // Setup: one slot at a time, players first, then the game master

  /** Esc skips the slot being configured without binding anything; after the game master's slot comes play. */
  lemma EscDuringSetup(b: Board)
    requires Inv(b) && b.state.ConfigSlot?
    ensures SameDevices(EscStep(b).seats, b.seats) && EscStep(b).gmDevice == b.gmDevice
    ensures b.state.i < |b.seats| ==> EscStep(b).state == ConfigSlot(b.state.i + 1)
    ensures b.state.i == |b.seats| ==> EscStep(b).state == Game
  {
  }

  /** A click from a device already in the assigned list changes nothing during setup. */
  lemma RepeatedDeviceIgnored(b: Board, path: string)
    requires Inv(b) && b.state.ConfigSlot?
    requires path in Assigned(b.seats, b.gmDevice)
    ensures ClickStep(b, path) == b
  {
    TagAgreesWithStatuses(b);
  }

  /**
   * A click from a device not yet in the assigned list binds it to the slot
   * being configured (player i, or the game master at slot N) and moves one
   * slot on; nothing else is bound or unbound.
   */
  lemma FreshDeviceBinds(b: Board, path: string)
    requires Inv(b) && b.state.ConfigSlot?
    requires path !in Assigned(b.seats, b.gmDevice)
    ensures var b' := ClickStep(b, path); var i := b.state.i;
      |b'.seats| == |b.seats|
      && (i < |b.seats| ==>
            b'.state == ConfigSlot(i + 1) && b'.gmDevice == b.gmDevice
            && b'.seats[i].device == Some(path)
            && forall j :: 0 <= j < |b.seats| && j != i ==> b'.seats[j].device == b.seats[j].device)
      && (i == |b.seats| ==>
            b'.state == Game && b'.gmDevice == Some(path) && SameDevices(b'.seats, b.seats))
  {
  }

  /**
   * During setup every event either changes nothing or moves exactly one
   * slot forward (slot N is followed by play), so the steps still needed
   * drop by exactly one.
   */
  lemma SetupAdvancesOneSlot(b: Board, e: Event)
    requires Inv(b) && b.state.ConfigSlot?
    ensures var b' := Step(b, e); var i := b.state.i;
      b' == b
      || ((i < |b.seats| ==> b'.state == ConfigSlot(i + 1))
          && (i == |b.seats| ==> b'.state == Game)
          && SetupStepsLeft(b') + 1 == SetupStepsLeft(b))
  {
    TagAgreesWithStatuses(b);
  }

  /** Once setup is over it never comes back. */
  lemma PlayNeverReturnsToSetup(b: Board, e: Event)
    requires !b.state.ConfigSlot?
    ensures !Step(b, e).state.ConfigSlot?
  {
  }

  /**
   * Whatever the events, at most SetupStepsLeft(b) of them change the board
   * during setup, and if setup is over at the end exactly that many did.
   */
  lemma {:induction false} SetupMovesBounded(b: Board, es: seq<Event>)
    requires Inv(b)
    ensures SetupMoves(b, es) <= SetupStepsLeft(b)
    ensures !Run(b, es).state.ConfigSlot? ==> SetupMoves(b, es) == SetupStepsLeft(b)
    decreases |es|
  {
    if es != [] {
      var next := Step(b, es[0]);
      StepPreservesInv(b, es[0]);
      SetupMovesBounded(next, es[1..]);
      if b.state.ConfigSlot? {
        SetupAdvancesOneSlot(b, es[0]);
      } else {
        PlayNeverReturnsToSetup(b, es[0]);
      }
    }
  }

  /** From construction, setup ends after exactly N + 1 effective Esc presses or fresh-device clicks. */
  lemma SetupTakesNPlusOne(seats: seq<Seat>, gmDevice: Option<string>, es: seq<Event>)
    requires DevicesDistinct(seats, gmDevice)
    ensures SetupMoves(Init(seats, gmDevice), es) <= |seats| + 1
    ensures !Run(Init(seats, gmDevice), es).state.ConfigSlot? ==>
      SetupMoves(Init(seats, gmDevice), es) == |seats| + 1
  {
    InitEstablishesInv(seats, gmDevice);
    SetupMovesBounded(Init(seats, gmDevice), es);
  }

  // ---------------------------------------------------------------------
  // Play: the first buzz wins, everything else waits

  /**
   * In play with nobody answering, a click from the device of player k,
   * where no earlier player in list order holds that device, makes player
   * k answer; devices and the other statuses stay as they were.
   */
  lemma BuzzFirstWins(b: Board, path: string, k: nat)
    requires Inv(b) && b.state == Game
    requires k < |b.seats| && b.seats[k].device == Some(path)
    requires forall j :: 0 <= j < k ==> b.seats[j].device != Some(path)
    ensures ClickStep(b, path) == Board(Answering(k), b.seats[k := Seat(Some(path), Answer)], b.gmDevice)
  {
    TagAgreesWithStatuses(b);
  }

  /** In play, a click from a device no player holds changes nothing. */
  lemma UnknownBuzzIgnored(b: Board, path: string)
    requires Inv(b) && b.state == Game
    requires forall j :: 0 <= j < |b.seats| ==> b.seats[j].device != Some(path)
    ensures ClickStep(b, path) == b
  {
    TagAgreesWithStatuses(b);
  }

  /** In play, a click from the game master's (non-empty) device changes nothing. */
  lemma GameMasterBuzzIgnored(b: Board, path: string)
    requires Inv(b) && b.state == Game
    requires path != "" && b.gmDevice == Some(path)
    ensures ClickStep(b, path) == b
  {
    UnknownBuzzIgnored(b, path);
  }

  /** Esc in play with nobody answering changes nothing. */
  lemma EscInPlayIgnored(b: Board)
    requires Inv(b) && b.state == Game
    ensures EscStep(b) == b
  {
    TagAgreesWithStatuses(b);
  }

  /** While a player answers, every click except one from the game master's device is ignored. */
  lemma Lockout(b: Board, path: string)
    requires Inv(b) && b.state.Answering?
    requires b.gmDevice != Some(path)
    ensures ClickStep(b, path) == b
  {
    TagAgreesWithStatuses(b);
  }

  /** No sequence of clicks that avoids the game master's device undoes an answer. */
  lemma {:induction false} LockoutHolds(b: Board, es: seq<Event>)
    requires Inv(b) && b.state.Answering?
    requires forall j :: 0 <= j < |es| ==> es[j].LeftClick? && b.gmDevice != Some(es[j].path)
    ensures Run(b, es) == b
    decreases |es|
  {
    if es != [] {
      Lockout(b, es[0].path);
      LockoutHolds(b, es[1..]);
    }
  }

  /** Esc ends an answer: back to play, every status None, devices kept. */
  lemma EscEndsAnswer(b: Board)
    requires Inv(b) && b.state.Answering?
    ensures EscStep(b) == Board(Game, Cleared(b.seats), b.gmDevice)
  {
    TagAgreesWithStatuses(b);
  }

  /** A click from the game master's device ends an answer: back to play, every status None, devices kept. */
  lemma GameMasterEndsAnswer(b: Board, path: string)
    requires Inv(b) && b.state.Answering?
    requires b.gmDevice == Some(path)
    ensures ClickStep(b, path) == Board(Game, Cleared(b.seats), b.gmDevice)
  {
    TagAgreesWithStatuses(b);
  }

  // ---------------------------------------------------------------------
  // A whole game with three players

  /**
   * Device A takes player 1's slot, the next two slots are skipped, device
   * D becomes the game master; A buzzes and answers, B and C are locked
   * out, D ends the round. Pressing A again in slot 1 is ignored.
   */
  lemma ThreePlayerGame()
    ensures var b0 := Init(seq(3, _ => Seat(None, NoStatus)), None);
      var b1 := ClickStep(b0, "A");
      var b2 := EscStep(EscStep(b1));
      var b3 := ClickStep(b2, "D");
      var b4 := ClickStep(b3, "A");
      var b5 := ClickStep(ClickStep(b4, "B"), "C");
      var b6 := ClickStep(b5, "D");
      b1.state == ConfigSlot(1) && b1.seats[0] == Seat(Some("A"), NoStatus)
      && ClickStep(b1, "A") == b1
      && b2.state == ConfigSlot(3)
      && b3.state == Game && b3.gmDevice == Some("D")
      && b4.state == Answering(0) && b4.seats[0].status == Answer
      && b5 == b4
      && b6.state == Game && (forall j :: 0 <= j < 3 ==> b6.seats[j].status == NoStatus)
  {
    var b0 := Init(seq(3, _ => Seat(None, NoStatus)), None);
    InitEstablishesInv(seq(3, _ => Seat(None, NoStatus)), None);
    assert "A" !in Assigned(b0.seats, b0.gmDevice);
    var b1 := ClickStep(b0, "A");
    FreshDeviceBinds(b0, "A");
    ClickPreservesInv(b0, "A");
    assert "A" in Assigned(b1.seats, b1.gmDevice) by { assert b1.seats[0].device == Some("A"); }
    RepeatedDeviceIgnored(b1, "A");
    EscPreservesInv(b1);
    EscDuringSetup(b1);
    EscPreservesInv(EscStep(b1));
    EscDuringSetup(EscStep(b1));
    var b2 := EscStep(EscStep(b1));
    assert "D" !in Assigned(b2.seats, b2.gmDevice);
    FreshDeviceBinds(b2, "D");
    ClickPreservesInv(b2, "D");
    var b3 := ClickStep(b2, "D");
    BuzzFirstWins(b3, "A", 0);
    var b4 := ClickStep(b3, "A");
    ClickPreservesInv(b3, "A");
    Lockout(b4, "B");
    Lockout(b4, "C");
    GameMasterEndsAnswer(b4, "D");
  }
}
