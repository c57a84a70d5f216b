/** Choosing an airframe: two parameters written as one verified transaction, then, on PX4, a restart. */
module Airframe {
  import opened Bytes
  import opened ParamSets
  import opened VerifiedWrites

  datatype Choice = Px4(autostartId: nat) | ArduPilot(frameClass: nat, frameType: nat)

  datatype Reason = NotReady | UnsupportedProfile | Armed | ArmingUnknown | TransactionBusy | FamilyMismatch
                  | UnknownAirframe | ParameterMissing

  datatype Status = Refused(reason: Reason) | RebootRequired | Rebooting | RebootRejected | ContextChanged
                  | WriteFailed(rollbackFailures: seq<string>)

  /** What the bridge knows of the vehicle when the request arrives. `sameFamily` is the request's against the
      vehicle's, `known` is the catalogue's word on the airframe asked for. */
  datatype Vehicle = Vehicle(ready: bool, supported: bool, armed: Option<bool>, busy: bool, sameFamily: bool, known: bool,
                             values: Values, types: map<string, nat>)

  function IdsOf(c: Choice): (string, string) {
    if c.Px4? then ("SYS_AUTOSTART", "SYS_AUTOCONFIG") else ("FRAME_CLASS", "FRAME_TYPE")
  }

  predicate Has(v: Vehicle, id: string) {
    id in v.values && id in v.types
  }

  function EntriesOf(c: Choice, types: map<string, nat>): (entries: seq<Entry>)
    requires var (first, second) := IdsOf(c); first in types && second in types
    ensures DistinctIds(entries) && |entries| == 2
  {
    match c
    case Px4(autostartId) =>
      [Entry("SYS_AUTOSTART", autostartId as real, types["SYS_AUTOSTART"]), Entry("SYS_AUTOCONFIG", 1.0, types["SYS_AUTOCONFIG"])]
    case ArduPilot(frameClass, frameType) =>
      [Entry("FRAME_CLASS", frameClass as real, types["FRAME_CLASS"]), Entry("FRAME_TYPE", frameType as real, types["FRAME_TYPE"])]
  }

  /** Everything that must hold before the first write. */
  predicate MayStart(v: Vehicle, c: Choice) {
    && v.ready && v.supported && v.armed == Some(false) && !v.busy && v.sameFamily && v.known
    && var (first, second) := IdsOf(c); Has(v, first) && Has(v, second)
  }

  /** The reason names what is wrong, and nothing of higher rank is. */
  predicate FirstObstacle(v: Vehicle, c: Choice, reason: Reason) {
    match reason
    case NotReady => !v.ready
    case UnsupportedProfile => v.ready && !v.supported
    case Armed => v.ready && v.supported && v.armed == Some(true)
    case ArmingUnknown => v.ready && v.supported && v.armed.None?
    case TransactionBusy => v.ready && v.supported && v.armed == Some(false) && v.busy
    case FamilyMismatch => v.ready && v.supported && v.armed == Some(false) && !v.busy && !v.sameFamily
    case UnknownAirframe => v.ready && v.supported && v.armed == Some(false) && !v.busy && v.sameFamily && !v.known
    case ParameterMissing =>
      && v.ready && v.supported && v.armed == Some(false) && !v.busy && v.sameFamily && v.known
      && var (first, second) := IdsOf(c); !Has(v, first) || !Has(v, second)
  }

  /** Check the vehicle, write, and on PX4 restart it. */
  method ApplyAirframe(q: ParamSetQueue, v: Vehicle, c: Choice, safe: bool, allowed: nat -> bool, safeAfter: nat -> bool, tries: Tries,
                       safeAtReboot: bool, takesReboot: bool)
    returns (status: Status, rebootsSent: nat, ghost fc: Values)
    requires q.Valid()
    modifies q
    ensures q.Valid() && q.pending == old(q.pending) && (status.Refused? ==> q.writes == old(q.writes))
    ensures status.Refused? <==> !MayStart(v, c)
    ensures status.Refused? ==> FirstObstacle(v, c, status.reason) && fc == v.values
    ensures rebootsSent == if status.Rebooting? then 1 else 0
    ensures MayStart(v, c) ==>
              var entries := EntriesOf(c, v.types);
              var written := safe && forall k :: 0 <= k < 2 ==>
                Good(entries[k], v.values[entries[k].id], k, allowed(k) && Free(old(q.pending), entries[k].id), safeAfter(k), tries);
              && (status.RebootRequired? <==> c.ArduPilot? && written)
              && (status.Rebooting? <==> c.Px4? && written && safeAtReboot && takesReboot)
              && (status.RebootRejected? <==> c.Px4? && written && safeAtReboot && !takesReboot)
              && (written ==> Holds(entries[0], entries[0].value, fc) && Holds(entries[1], entries[1].value, fc))
              && (status == WriteFailed([]) ==>
                    Holds(entries[0], v.values[entries[0].id], fc) || Holds(entries[1], v.values[entries[1].id], fc))
              && Elsewhere(entries, v.values, fc)
  {
    hide Good, Holds, Elsewhere, Free, Consistent;
    rebootsSent, fc := 0, v.values;
    if !v.ready {
      return Status.Refused(NotReady), 0, fc;
    }
    if !v.supported {
      return Status.Refused(UnsupportedProfile), 0, fc;
    }
    if v.armed.None? {
      return Status.Refused(ArmingUnknown), 0, fc;
    }
    if v.armed.value {
      return Status.Refused(Armed), 0, fc;
    }
    if v.busy {
      return Status.Refused(TransactionBusy), 0, fc;
    }
    if !v.sameFamily {
      return Status.Refused(FamilyMismatch), 0, fc;
    }
    if !v.known {
      return Status.Refused(UnknownAirframe), 0, fc;
    }
    var (first, second) := IdsOf(c);
    if !Has(v, first) || !Has(v, second) {
      return Status.Refused(ParameterMissing), 0, fc;
    }
    var entries := EntriesOf(c, v.types);
    var ending: Ending, used: nat;
    ghost var failed;
    ending, used, failed, fc := Transact(q, entries, v.values, safe, allowed, safeAfter, tries);
    match ending {
      case ContextLost => status := Status.ContextChanged;
      case Failed(rollbackFailures) => status := WriteFailed(rollbackFailures);
      case Success =>
        if c.ArduPilot? {
          status := RebootRequired;
        } else if !safeAtReboot {
          status := Status.ContextChanged;
        } else if !takesReboot {
          status := RebootRejected;
        } else {
          status, rebootsSent := Rebooting, 1;
        }
    }
  }
}
