/** The contact state of one penetrating node (framework/include/geomsearch/PenetrationInfo.h):
    its mechanical status, captured into contact and released from it. The geometric fields
    of the record are not part of this model; `_mech_status_old` is kept to show that it is
    left alone. */
module PenetrationInfos {
  /** `MECH_STATUS_ENUM`. */
  datatype MechStatus = NoContact | Sticking | Slipping | SlippingFriction | Contact

  /** The enumerators' values, `MS_NO_CONTACT = 0` and the rest counting up. */
  function Ordinal(s: MechStatus): (n: nat)
    ensures n <= 4 && (n == 0 <==> s == NoContact)
  {
    match s
    case NoContact => 0
    case Sticking => 1
    case Slipping => 2
    case SlippingFriction => 3
    case Contact => 4
  }

  /** Distinct statuses have distinct values. */
  lemma {:induction false} OrdinalInjective(s: MechStatus, t: MechStatus)
    requires Ordinal(s) == Ordinal(t)
    ensures s == t
  {
  }

  predicate Captured(s: MechStatus)
  {
    s != NoContact
  }

  /** The status `capture()` leaves: a node out of contact comes into contact of unknown kind;
      any other status stays. */
  function Captures(s: MechStatus): MechStatus
  {
    if s == NoContact then Contact else s
  }

  /** After `capture()` the node is captured, with the status it had if it was captured
      already. */
  lemma {:induction false} CaptureSpec(s: MechStatus)
    ensures Captured(Captures(s))
    ensures Captured(s) ==> Captures(s) == s
    ensures !Captured(s) ==> Captures(s) == Contact
  {
  }

  /** Capturing twice is capturing once. */
  lemma {:induction false} CaptureIdempotent(s: MechStatus)
    ensures Captures(Captures(s)) == Captures(s)
  {
  }

  class PenetrationInfo {
    var mechStatus: MechStatus
    var mechStatusOld: MechStatus

    constructor(status: MechStatus, statusOld: MechStatus)
      ensures mechStatus == status && mechStatusOld == statusOld
    {
      mechStatus, mechStatusOld := status, statusOld;
    }

    /** `isCaptured()`. */
    method IsCaptured() returns (b: bool)
      ensures b <==> mechStatus != NoContact
    {
      b := mechStatus != NoContact;
    }

    /** `capture()`. */
    method Capture()
      modifies this
      ensures mechStatus == Captures(old(mechStatus)) && Captured(mechStatus)
      ensures mechStatusOld == old(mechStatusOld)
    {
      if mechStatus == NoContact {
        mechStatus := Contact;
      }
    }

    /** `release()`. */
    method Release()
      modifies this
      ensures mechStatus == NoContact && !Captured(mechStatus)
      ensures mechStatusOld == old(mechStatusOld)
    {
      mechStatus := NoContact;
    }
  }
}
