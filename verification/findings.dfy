/** Four places where phase2/phase2.c and phase3/phase3.c do not do what
    they evidently mean to. Each is modelled here as written, with an input
    that shows the discrepancy; the rest of the model uses the corrected
    behaviour, whose property is proved beside it. */
module Findings {
  import opened Limits
  import opened Scan
  import opened MailboxState
  import opened MailboxSpec
  import opened MailboxProperties
  import Phase3State
  import Phase3Spec

  // ------------------------------------------- mailbox id range (MboxSend)

  /** The range test of MboxSend and MboxCondSend as written. */
  predicate MboxIdRejectedAsWritten(id: int) {
    id > MAXMBOX || id < 0
  }

  /** The test lets MAXMBOX through, and MAXMBOX is one past the last entry
      of the mailbox table; every other id is judged as the corrected test
      judges it. */
  lemma MboxIdGuardAdmitsOnePastTheEnd(t: Tables, id: int)
    requires TablesOk(t)
    ensures !MboxIdRejectedAsWritten(MAXMBOX) && MAXMBOX == |t.boxes|
    ensures MboxIdRejectedAsWritten(id) != (id < 0 || id >= |t.boxes|) <==> id == MAXMBOX
  {
  }

  // ------------------------------------- semaphore index range (semP etc.)

  /** The range test of semP, semV and semFree as written. */
  predicate SemIndexRejectedAsWritten(i: int) {
    i < 0 || i > MAXSEMS
  }

  /** The test lets MAXSEMS through, one past the last semaphore entry. */
  lemma SemIndexGuardAdmitsOnePastTheEnd(k: Phase3State.Kernel3, i: int)
    requires Phase3State.Kernel3Ok(k)
    ensures !SemIndexRejectedAsWritten(MAXSEMS) && MAXSEMS == |k.sems|
    ensures SemIndexRejectedAsWritten(i) != !Phase3Spec.SemIndexOk(i) <==> i == MAXSEMS
  {
  }

  /** With the corrected test, MAXSEMS and every other index outside the
      table is refused by all three calls without touching the table. */
  lemma CorrectedSemIndexRefusesMaxSems(k: Phase3State.Kernel3, args: Phase3State.SysArgs, caller: int)
    requires Phase3State.Kernel3Ok(k) && (args.arg1 < 0 || args.arg1 >= |k.sems|)
    ensures Phase3Spec.SemPSpec(k, args, caller) == Phase3Spec.Answer(k, args, -1)
    ensures Phase3Spec.SemVSpec(k, args) == Phase3Spec.Answer(k, args, -1)
    ensures Phase3Spec.SemFreeSpec(k, args) == Phase3Spec.Answer(k, args, -1)
  {
  }

  // ------------------------------- a resumed sender and a freed mailbox

  /** The shared tail of MboxSend as written, which does not look at the
      entry's status. */
  function DeliverAsWritten(t: Tables, id: int, msg: Payload, zapped: bool): Step
    requires WellFormed(t) && 0 <= id < MAXMBOX
  {
    var b := t.boxes[id];
    if b.blockRecv != [] then
      var rcv := b.blockRecv[0];
      var rec := t.procs[RecordOf(rcv)];
      if |msg| > rec.msgSize then Ret(t, -1)
      else
        Step(t.(boxes := t.boxes[id := b.(blockRecv := b.blockRecv[1..])],
                procs := t.procs[RecordOf(rcv) := rec.(message := msg, msgSize := |msg|)]),
             Returned(ZapCode(zapped, 0)), [rcv], [])
    else
      var s := FirstWhere(t.slots, SlotIsFree);
      if s == -1 then Step(t, Halted, [], [])
      else
        Ret(t.(slots := t.slots[s := Slot(Used, id, msg)],
               boxes := t.boxes[id := b.(slotList := b.slotList + [s], slotsUsed := b.slotsUsed + 1)]),
            ZapCode(zapped, 0))
  }

  /** The rest of MboxSend after blockMe as written: only the released flag
      is checked before the message is delivered. */
  function ResumeSendAsWritten(t: Tables, pid: int, zapped: bool): Step
    requires TablesOk(t) && WokenSender(t, pid)
  {
    var k := RecordOf(pid);
    var rec := t.procs[k];
    var t1 := t.(procs := t.procs[k := rec.(pending := Idle)]);
    if rec.mboxReleased then Ret(t1, -3)
    else DeliverAsWritten(t1, rec.pending.box, rec.pending.outgoing, zapped)
  }

  /** A one-slot mailbox: p1 fills it, p2 blocks sending, p3 receives p1's
      message and so wakes p2, and the mailbox, now with nobody queued, is
      released and freed before p2 runs. As written, p2 then queues its
      message on the FREE entry: the entry is EMPTY but holds a slot, so
      the next MboxCreate that reuses it starts with slotsUsed = 0 and a
      message nobody sent to it. With the correction p2's MboxSend returns
      -3 and no table changes except p2's own record. */
  lemma {:induction false} ResumedSenderRefillsFreedMailbox(
    t: Tables, id: int, m1: Payload, m2: Payload, maxSize: int, p1: int, p2: int, p3: int)
    requires TablesOk(t) && Live(t, id)
    requires t.boxes[id].numSlots == 1 && t.boxes[id].slotList == []
    requires t.boxes[id].blockSend == [] && t.boxes[id].blockRecv == []
    requires |m1| <= t.boxes[id].slotSize && |m2| <= t.boxes[id].slotSize && |m1| <= maxSize
    requires FirstWhere(t.slots, SlotIsFree) != -1
    requires RecordOf(p2) != RecordOf(p3)
    ensures var s1 := SendSpec(t, id, m1, p1, false);
      var s2 := SendSpec(s1.t, id, m2, p2, false);
      var r3 := ReceiveSpec(s2.t, id, maxSize, p3, false);
      var f4 := ReleaseSpec(r3.t, id, false);
      && s1.out == Returned(0) && s2.out == Blocked
      && r3.out == Returned(|m1|) && r3.woken == [p2]
      && f4.out == Returned(0) && f4.t.boxes[id] == ZeroMailbox()
      && WokenSender(f4.t, p2)
    ensures var f4 := ReleaseSpec(ReceiveSpec(SendSpec(SendSpec(t, id, m1, p1, false).t, id, m2, p2, false).t, id, maxSize, p3, false).t, id, false);
      var w := ResumeSendAsWritten(f4.t, p2, false);
      var c := ResumeSendSpec(f4.t, p2, false);
      && w.t.boxes[id].status == Empty && w.t.boxes[id].slotList != [] && !TablesOk(w.t)
      && c.out == Returned(-3) && c.t.boxes == f4.t.boxes && c.t.slots == f4.t.slots
  {
    FillThenBlock(t, id, m1, m2, p1, p2);
    var s2 := SendSpec(SendSpec(t, id, m1, p1, false).t, id, m2, p2, false);
    ReceiveWakesSender(s2.t, id, m1, m2, maxSize, p2, p3);
    var r3 := ReceiveSpec(s2.t, id, maxSize, p3, false);
    var f4 := ReleaseSpec(r3.t, id, false);
    assert f4.t.slots == r3.t.slots && f4.t.procs == r3.t.procs;
    assert WokenSender(f4.t, p2);
    var k := RecordOf(p2);
    var u := f4.t.(procs := f4.t.procs[k := f4.t.procs[k].(pending := Idle)]);
    assert u.slots == r3.t.slots;
    var w := ResumeSendAsWritten(f4.t, p2, false);
    assert w.t.boxes[id].slotList != [];
    assert !BoxOk(w.t.boxes[id]);
  }

  // ------------------------------------- the released flag is never cleared

  /** The first lines of MboxSend and MboxReceive as written: the record is
      claimed, but a released flag left by an earlier MboxRelease stays. */
  function RegisterAsWritten(t: Tables, pid: int): (t': Tables)
    requires TablesOk(t)
    ensures TablesOk(t')
  {
    var k := RecordOf(pid);
    t.(procs := t.procs[k := t.procs[k].(pid := pid, status := Active)])
  }

  /** MboxReceive as written, with that claim. */
  function ReceiveAsWritten(t: Tables, id: int, maxSize: int, pid: int, zapped: bool): Step
    requires TablesOk(t) && 0 <= id < MAXMBOX
  {
    if t.boxes[id].status == Empty then Ret(t, -1)
    else if maxSize < 0 then Ret(t, -1)
    else
      var t0 := RegisterAsWritten(t, pid);
      var k := RecordOf(pid);
      var t1 := t0.(procs := t0.procs[k := t0.procs[k].(msgSize := maxSize)]);
      var b := t1.boxes[id];
      if b.slotList == [] then
        Step(t1.(boxes := t1.boxes[id := b.(blockRecv := b.blockRecv + [pid])],
                 procs := t1.procs[k := t1.procs[k].(pending := Receiving(id))]),
             Blocked, [], [])
      else TakeSpec(t1, id, maxSize, zapped)
  }

  /** A process once woken by MboxRelease keeps its released flag. When it
      later waits on another mailbox and a sender hands it a message, the
      send succeeds and the message is in its buffer, yet as written its
      MboxReceive returns -3. With the flag cleared on entry, the receive
      returns the message's length. */
  lemma {:induction false} StaleReleaseFlagLosesDeliveredMessage(
    t: Tables, id: int, msg: Payload, maxSize: int, pr: int, ps: int)
    requires TablesOk(t) && Live(t, id)
    requires t.procs[RecordOf(pr)].mboxReleased
    requires t.boxes[id].slotList == [] && t.boxes[id].blockRecv == []
    requires |msg| <= t.boxes[id].slotSize && |msg| <= maxSize
    requires RecordOf(pr) != RecordOf(ps)
    ensures var r := ReceiveAsWritten(t, id, maxSize, pr, false);
      && r.out == Blocked
      && TablesOk(r.t)
      && var s := SendSpec(r.t, id, msg, ps, false);
      && s.out == Returned(0) && s.woken == [pr]
      && WokenReceiver(s.t, pr)
      && s.t.procs[RecordOf(pr)].message == msg
      && ResumeReceiveSpec(s.t, pr, false).out == Returned(-3)
    ensures var r := ReceiveSpec(t, id, maxSize, pr, false);
      var s := SendSpec(r.t, id, msg, ps, false);
      && WokenReceiver(s.t, pr)
      && ResumeReceiveSpec(s.t, pr, false).out == Returned(|msg|)
  {
    var r := ReceiveAsWritten(t, id, maxSize, pr, false);
    assert r.t.boxes[id].blockRecv == [pr];
    assert r.t.procs[RecordOf(pr)].mboxReleased;
    assert TablesOk(r.t);
    var t1 := Register(r.t, ps);
    assert t1.procs[RecordOf(pr)] == r.t.procs[RecordOf(pr)];
    HandoffToHeadReceiver(t1, id, msg, false);
    Rendezvous(t, id, msg, maxSize, pr, ps);
  }
}
