/** The bridge's command transactions for all command ids, updated in place by requests, timers and ACKs. */
module Commands {
  import opened Bytes
  import opened CommandCells
  import opened CommandRuns

  /** A completed write to the link; only the command id and the request it belongs to matter here. */
  datatype Packet = Packet(command: nat, txn: nat, confirmation: nat)

  class CommandTransactions {
    const link: Link
    var pendingCommands: map<nat, Pending>
    /** Ids whose last request timed out, with the end of the uncertain window. */
    var uncertainUntil: map<nat, int>
    var commandQuarantineUntil: map<nat, int>
    /** Packets the link has accepted, oldest first. */
    var written: seq<Packet>

    constructor (link: Link)
      ensures this.link == link && written == [] && forall id :: CellOf(id) == Cell(None, None, None)
    {
      this.link := link;
      pendingCommands, uncertainUntil, commandQuarantineUntil, written := map[], map[], map[], [];
    }

    /** Everything the bridge knows about one id. */
    function CellOf(id: nat): Cell
      reads this
    {
      Cell(if id in pendingCommands then Some(pendingCommands[id]) else None,
           if id in uncertainUntil then Some(uncertainUntil[id]) else None,
           if id in commandQuarantineUntil then Some(commandQuarantineUntil[id]) else None)
    }

    twostate predicate OthersKept(id: nat)
      reads this
    {
      forall other: nat :: other != id ==> CellOf(other) == old(CellOf(other))
    }

    /** The packet of a repetition, if the link takes it: the same request with the confirmation one higher. */
    function Repeated(id: nat, p: Pending, accepted: bool): seq<Packet> {
      if accepted then [Packet(id, p.txn, if p.confirmation < 254 then p.confirmation + 1 else 255)] else []
    }

    /** The same request goes on waiting to the same deadline, after that many attempts, and at most that long. */
    predicate KeepsWaiting(id: nat, p: Pending, attempts: nat, now: int, delay: int)
      reads this
    {
      var c := CellOf(id);
      && c.pending.Some? && c.pending.value.txn == p.txn && c.pending.value.attempt == attempts
      && c.pending.value.maxAttempts == p.maxAttempts
      && c.pending.value.deadlineAt == p.deadlineAt
      && c.pending.value.timerAt == Some(if now + delay < p.deadlineAt then now + delay else p.deadlineAt)
    }

    method QuarantineCommand(id: nat, now: int)
      modifies `commandQuarantineUntil
      ensures CellOf(id) == old(CellOf(id)).(quarantineUntil := Some(now + TimeoutMs(link))) && OthersKept(id)
    {
      commandQuarantineUntil := commandQuarantineUntil[id := now + TimeoutMs(link)];
    }

    method MarkCommandUncertain(id: nat, now: int)
      modifies `uncertainUntil
      ensures CellOf(id) == old(CellOf(id)).(uncertainUntil := Some(now + UncertainMs(link))) && OthersKept(id)
    {
      uncertainUntil := uncertainUntil[id := now + UncertainMs(link)];
    }

    method IsCommandUncertain(id: nat, now: int) returns (r: bool)
      modifies `uncertainUntil
      ensures r == Live(old(CellOf(id)).uncertainUntil, now)
      ensures CellOf(id) == old(CellOf(id)).(uncertainUntil := Looked(old(CellOf(id)).uncertainUntil, now)) && OthersKept(id)
    {
      if id !in uncertainUntil {
        return false;
      }
      if now < uncertainUntil[id] {
        return true;
      }
      uncertainUntil := uncertainUntil - {id};
      return false;
    }

    method IsCommandQuarantined(id: nat, now: int) returns (r: bool)
      modifies `commandQuarantineUntil
      ensures r == Live(old(CellOf(id)).quarantineUntil, now)
      ensures CellOf(id) == old(CellOf(id)).(quarantineUntil := Looked(old(CellOf(id)).quarantineUntil, now)) && OthersKept(id)
    {
      if id !in commandQuarantineUntil {
        return false;
      }
      if now < commandQuarantineUntil[id] {
        return true;
      }
      commandQuarantineUntil := commandQuarantineUntil - {id};
      return false;
    }

    /** The wait is over without an answer. */
    method AbandonUncertain(id: nat, now: int)
      modifies `pendingCommands, `uncertainUntil, `commandQuarantineUntil
      ensures CellOf(id) == GiveUp(link, now) && OthersKept(id)
    {
      pendingCommands := pendingCommands - {id};
      commandQuarantineUntil := commandQuarantineUntil - {id};
      MarkCommandUncertain(id, now);
    }

    method ScheduleCommandTimeout(id: nat, p: Pending, now: int, requestedDelay: int)
      modifies `pendingCommands, `uncertainUntil, `commandQuarantineUntil
      ensures CellOf(id) == Schedule(link, old(CellOf(id)), p, now, requestedDelay) && OthersKept(id)
    {
      var remaining := p.deadlineAt - now;
      if remaining <= 0 {
        AbandonUncertain(id, now);
        return;
      }
      pendingCommands := pendingCommands[id := p.(timerAt := Some(now + if requestedDelay < remaining then requestedDelay else remaining))];
    }

    /** Write the request once more. A refused write ends the transaction without any settling window. */
    method TransmitPendingCommand(id: nat, p: Pending, now: int, accepted: bool)
      modifies this
      ensures CellOf(id) == Transmit(link, old(CellOf(id)), p, now, accepted) && OthersKept(id)
      ensures written == if accepted then old(written) + [Packet(id, p.txn, p.confirmation)] else old(written)
    {
      var p1 := p.(attempt := p.attempt + 1, deadlineAt := if p.deadlineAt == 0 then now + DeadlineMs(link) else p.deadlineAt);
      if !accepted {
        pendingCommands := pendingCommands - {id};
        return;
      }
      written := written + [Packet(id, p.txn, p.confirmation)];
      ScheduleCommandTimeout(id, p1, now, TimeoutMs(link));
    }

    method HandleCommandTimeout(id: nat, now: int, accepted: bool)
      modifies this
      ensures CellOf(id) == Timeout(link, old(CellOf(id)), now, accepted) && OthersKept(id)
      ensures var p := old(CellOf(id)).pending;
              if p.None? then CellOf(id) == old(CellOf(id)) && written == old(written)
              else if now < p.value.deadlineAt && p.value.attempt < p.value.maxAttempts then
                && written == old(written) + Repeated(id, p.value, accepted)
                && (accepted && p.value.deadlineAt > 0 ==>
                      KeepsWaiting(id, p.value, p.value.attempt + 1, now, TimeoutMs(link)))
                && (!accepted ==> CellOf(id) == old(CellOf(id)).(pending := None))
              else CellOf(id) == GiveUp(link, now) && written == old(written)
    {
      if id !in pendingCommands {
        return;
      }
      var p := pendingCommands[id].(timerAt := None);
      if now < p.deadlineAt && p.attempt < p.maxAttempts {
        TransmitPendingCommand(id, p.(confirmation := NextConfirmation(p.confirmation)), now, accepted);
        return;
      }
      AbandonUncertain(id, now);
    }

    /** The emergency disarm is written at once; otherwise an occupied id refuses the request. */
    method SendCommand(id: nat, txn: nat, maxAttempts: nat, emergency: bool, now: int, accepted: bool) returns (r: Outcome)
      modifies this
      ensures (CellOf(id), r) == Send(link, old(CellOf(id)), now, txn, maxAttempts, emergency, accepted) && OthersKept(id)
      ensures written == if r.Sent? then old(written) + [Packet(id, txn, 0)] else old(written)
      ensures var c := old(CellOf(id));
              && (r.Sent? <==> accepted && (emergency || !Occupied(c, now)))
              && (r.WriteRejected? <==> !accepted && (emergency || !Occupied(c, now)))
              && (r.Busy? <==> !emergency && c.pending.Some?)
              && (r.ResultUncertain? <==> !emergency && c.pending.None? && Live(c.uncertainUntil, now))
    {
      hide Transmit;
      if emergency {
        var occupied := id in pendingCommands;
        if !occupied {
          occupied := IsCommandUncertain(id, now);
        }
        if !occupied {
          occupied := IsCommandQuarantined(id, now);
        }
        if occupied {
          AbandonUncertain(id, now);
          if accepted {
            written := written + [Packet(id, txn, 0)];
          }
          return if accepted then Sent else WriteRejected;
        }
      }
      r := EnqueuePendingCommand(id, FreshPending(txn, maxAttempts), now, accepted);
    }

    method EnqueuePendingCommand(id: nat, p: Pending, now: int, accepted: bool) returns (r: Outcome)
      modifies this
      ensures var c := old(CellOf(id));
              (CellOf(id), r) ==
                if c.pending.Some? then (c, Busy)
                else if Live(c.uncertainUntil, now) then (c, ResultUncertain)
                else if Live(c.quarantineUntil, now) then (c.(uncertainUntil := None), Settling)
                else (Transmit(link, Cell(None, None, None), p, now, accepted), if accepted then Sent else WriteRejected)
      ensures OthersKept(id)
      ensures written == if r.Sent? then old(written) + [Packet(id, p.txn, p.confirmation)] else old(written)
    {
      if id in pendingCommands {
        return Busy;
      }
      var uncertain := IsCommandUncertain(id, now);
      if uncertain {
        return ResultUncertain;
      }
      var settling := IsCommandQuarantined(id, now);
      if settling {
        return Settling;
      }
      pendingCommands := pendingCommands[id := p];
      TransmitPendingCommand(id, p, now, accepted);
      return if accepted then Sent else WriteRejected;
    }

    /** Report an ACK and let it act on the id it names. */
    method HandleCommandAck(id: nat, result: AckResult, now: int, accepted: bool) returns (report: AckReport)
      modifies this
      ensures report == Report(old(CellOf(id)), now)
      ensures CellOf(id) == Ack(link, old(CellOf(id)), now, result, accepted) && OthersKept(id)
      ensures var p := old(CellOf(id)).pending;
              if p.None? then
                && written == old(written) && CellOf(id).pending.None?
                && (report.stale && !result.InProgress? ==> CellOf(id) == Cell(None, None, Some(now + TimeoutMs(link))))
              else if result.TemporarilyRejected? && p.value.attempt < p.value.maxAttempts then
                && written == old(written) + Repeated(id, p.value, accepted)
                && (accepted && 0 < p.value.deadlineAt && now < p.value.deadlineAt ==>
                      KeepsWaiting(id, p.value, p.value.attempt + 1, now, TimeoutMs(link)))
                && (!accepted ==> CellOf(id).pending.None?)
              else
                && written == old(written)
                && (result.InProgress? && now < p.value.deadlineAt ==>
                      KeepsWaiting(id, p.value, p.value.attempt, now, TimeoutMs(link) * 4))
                && (!result.InProgress? ==>
                      CellOf(id).pending.None? && CellOf(id).quarantineUntil == Some(now + TimeoutMs(link)))
    {
      if id !in pendingCommands {
        var orphaned := IsCommandUncertain(id, now);
        if !orphaned {
          orphaned := IsCommandQuarantined(id, now);
        }
        if orphaned && !result.InProgress? {
          uncertainUntil := uncertainUntil - {id};
          QuarantineCommand(id, now);
        }
        return AckReport(None, orphaned);
      }
      var p := pendingCommands[id].(timerAt := None);
      report := AckReport(Some(p.txn), false);
      if result.InProgress? {
        ScheduleCommandTimeout(id, p, now, TimeoutMs(link) * 4);
      } else if result.TemporarilyRejected? && p.attempt < p.maxAttempts {
        TransmitPendingCommand(id, p.(confirmation := NextConfirmation(p.confirmation)), now, accepted);
      } else {
        pendingCommands := pendingCommands - {id};
        QuarantineCommand(id, now);
      }
    }
  }
}
