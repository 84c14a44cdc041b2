/**
 * A contestant or the game master: a fixed name and colour, an input
 * device that setup binds, and a display status that the controller drives.
 */
module Players {
  import opened Wrappers

  /** The statuses the controller writes: Python's `None`, "config" and "answer". */
  datatype Status = NoStatus | Config | Answer

  /**
   * The highlight the status setter paints on the player's square:
   * blue while being configured, green while answering, otherwise the
   * player's own colour.
   */
  function HighlightColor(s: Status, own: string): (c: string)
    ensures c == "blue" <==> s == Config || (s == NoStatus && own == "blue")
    ensures c == "green" <==> s == Answer || (s == NoStatus && own == "green")
    ensures s == NoStatus ==> c == own
  {
    match s
    case Config => "blue"
    case Answer => "green"
    case NoStatus => own
  }

  /**
   * When the player's own colour is neither of the two signal colours,
   * the square's highlight tells every status apart.
   */
  lemma HighlightRevealsStatus(s1: Status, s2: Status, own: string)
    requires own != "blue" && own != "green"
    requires HighlightColor(s1, own) == HighlightColor(s2, own)
    ensures s1 == s2
  {
  }

  class Player {
    const name: string
    const color: string
    var device: Option<string>
    var status: Status

    /** A new player holds no device and no status. */
    constructor (name: string, color: string)
      ensures this.name == name && this.color == color
      ensures device == None && status == NoStatus
    {
      this.name := name;
      this.color := color;
      device := None;
      status := NoStatus;
    }

    /** The colour the square shows for the last status written. */
    function Highlight(): (c: string)
      reads this
      ensures c == "blue" || c == "green" || c == color
      ensures status == NoStatus ==> c == color
    {
      HighlightColor(status, color)
    }

    /** The `status` setter: stores the value; the device is untouched. */
    method SetStatus(value: Status)
      modifies this
      ensures status == value
      ensures device == old(device)
    {
      status := value;
    }

    /** Binds `d` as this player's device; the status is untouched. */
    method AssignDevice(d: Option<string>)
      modifies this
      ensures device == d
      ensures status == old(status)
    {
      device := d;
    }

    /** Back to the shape of a new player. */
    method Reset()
      modifies this
      ensures device == None && status == NoStatus
    {
      device := None;
      SetStatus(NoStatus);
    }
  }
}
