/** The mailbox operations of phase2/phase2.c as functions from the tables
    before a call to the tables after it, with the call's return value.

    A call that suspends its caller (blockMe) is split in two events: the
    call itself, which queues the caller and yields `Blocked`, and a later
    resume event (ResumeSendSpec, ResumeReceiveSpec) that runs the rest of
    the call once another operation has dequeued and woken the caller.
    `woken` lists the processes an event unblocks (unblockProc), in order.
    getpid() and isZapped() are the parameters `pid` and `zapped`. */
module MailboxSpec {
  import opened Limits
  import opened Scan
  import opened MailboxState

  /** What a call returns: an integer code, a suspension, or USLOSS_Halt. */
  datatype Outcome = Returned(code: int) | Blocked | Halted

  /** The tables after an event, its outcome, the processes it woke, and
      for a receive the bytes copied into the caller's buffer. */
  datatype Step = Step(t: Tables, out: Outcome, woken: seq<int>, data: Payload)

  function Ret(t: Tables, code: int): Step {
    Step(t, Returned(code), [], [])
  }

  /** The first lines of every send and receive: claim the caller's request
      record. Clearing mboxReleased here is a correction (see README,
      Findings): the source never clears the flag after start1. */
  function Register(t: Tables, pid: int): (t': Tables)
    requires TablesOk(t)
    ensures TablesOk(t')
  {
    var k := RecordOf(pid);
    t.(procs := t.procs[k := t.procs[k].(pid := pid, status := Active, mboxReleased := false)])
  }

  /** A receiver also records the capacity of its buffer (both receive
      calls have already refused a negative one). */
  function RegisterReceiver(t: Tables, pid: int, maxSize: int): (t': Tables)
    requires TablesOk(t) && maxSize >= 0
    ensures TablesOk(t')
  {
    var t1 := Register(t, pid);
    var k := RecordOf(pid);
    t1.(procs := t1.procs[k := t1.procs[k].(msgSize := maxSize)])
  }

  /** MboxCreate: first-fit allocation of a mailbox entry. */
  function CreateSpec(t: Tables, slots: int, slotSize: int): (r: Step)
    requires TablesOk(t)
    ensures TablesOk(r.t)
  {
    if slots < 0 then Ret(t, -1)
    else if slotSize < 0 || slotSize > MAX_MESSAGE then Ret(t, -1)
    else
      var i := FirstWhere(t.boxes, BoxIsFree);
      if i == -1 then Ret(t, -1)
      else
        var b := t.boxes[i];
        Ret(t.(boxes := t.boxes[i := b.(numSlots := slots, slotsUsed := 0, slotSize := slotSize, status := Used)]), i)
  }

  /** The tail of MboxSend / MboxCondSend once the caller will not block:
      hand the message to the longest-waiting receiver if there is one,
      otherwise queue it in the first free slot of the pool. Running out of
      slots is `Halted` (MboxCondSend turns it into -2). */
  function DeliverSpec(t: Tables, id: int, msg: Payload, zapped: bool): (r: Step)
    requires TablesOk(t) && 0 <= id < MAXMBOX && t.boxes[id].status == Used
    ensures TablesOk(r.t)
  {
    var b := t.boxes[id];
    if b.blockRecv != [] then
      var rcv := b.blockRecv[0];
      var rec := t.procs[RecordOf(rcv)];
      if |msg| > rec.msgSize then Ret(t, -1)
      else
        Step(t.(boxes := t.boxes[id := b.(blockRecv := b.blockRecv[1..])],
                procs := t.procs[RecordOf(rcv) := rec.(message := msg, msgSize := |msg|)]),
             Returned(ZapCode(zapped, 0)), [rcv], [])
    else
      var s := FirstWhere(t.slots, SlotIsFree);
      if s == -1 then Step(t, Halted, [], [])
      else
        Ret(t.(slots := t.slots[s := Slot(Used, id, msg)],
               boxes := t.boxes[id := b.(slotList := b.slotList + [s], slotsUsed := b.slotsUsed + 1)]),
            ZapCode(zapped, 0))
  }

  /** MboxSend. The id guard is the corrected one (see README, Findings). */
  function SendSpec(t: Tables, id: int, msg: Payload, pid: int, zapped: bool): (r: Step)
    requires TablesOk(t)
    ensures TablesOk(r.t)
  {
    if id < 0 || id >= MAXMBOX then Ret(t, -1)
    else if |msg| > t.boxes[id].slotSize then Ret(t, -1)
    else
      var t1 := Register(t, pid);
      var b := t1.boxes[id];
      if b.numSlots <= b.slotsUsed && b.blockRecv == [] then
        var k := RecordOf(pid);
        Step(t1.(boxes := t1.boxes[id := b.(blockSend := b.blockSend + [pid])],
                 procs := t1.procs[k := t1.procs[k].(pending := Sending(id, msg))]),
             Blocked, [], [])
      else DeliverSpec(t1, id, msg, zapped)
  }

  /** MboxCondSend: MboxSend that never suspends. */
  function CondSendSpec(t: Tables, id: int, msg: Payload, pid: int, zapped: bool): (r: Step)
    requires TablesOk(t)
    ensures TablesOk(r.t)
  {
    if id < 0 || id >= MAXMBOX then Ret(t, -1)
    else if t.boxes[id].numSlots != 0 && |msg| > t.boxes[id].slotSize then Ret(t, -1)
    else
      var t1 := Register(t, pid);
      var b := t1.boxes[id];
      if b.numSlots != 0 && b.numSlots == b.slotsUsed then Ret(t1, -2)
      else if b.blockRecv == [] && b.numSlots == 0 then Ret(t1, -1)
      else
        var st := DeliverSpec(t1, id, msg, zapped);
        if st.out == Halted then Ret(st.t, -2) else st
  }

  /** The tail of MboxReceive / MboxCondReceive when a message is queued:
      take the oldest, free its slot, and wake the longest-waiting sender. */
  function TakeSpec(t: Tables, id: int, maxSize: int, zapped: bool): (r: Step)
    requires TablesOk(t) && 0 <= id < MAXMBOX && t.boxes[id].slotList != []
    ensures TablesOk(r.t)
  {
    var b := t.boxes[id];
    var s := b.slotList[0];
    var m := t.slots[s].message;
    if |m| > maxSize then Ret(t, -1)
    else
      var b1 := b.(slotList := b.slotList[1..], slotsUsed := b.slotsUsed - 1);
      var b2 := if b1.blockSend != [] then b1.(blockSend := b1.blockSend[1..]) else b1;
      Step(t.(boxes := t.boxes[id := b2], slots := t.slots[s := ZeroSlot(t.slots[s])]),
           Returned(ZapCode(zapped, |m|)),
           if b1.blockSend != [] then [b1.blockSend[0]] else [],
           m)
  }

  /** MboxReceive. The source does no range check on the id, so callers
      must pass an id of the table. */
  function ReceiveSpec(t: Tables, id: int, maxSize: int, pid: int, zapped: bool): (r: Step)
    requires TablesOk(t) && 0 <= id < MAXMBOX
    ensures TablesOk(r.t)
  {
    if t.boxes[id].status == Empty then Ret(t, -1)
    else if maxSize < 0 then Ret(t, -1)
    else
      var t1 := RegisterReceiver(t, pid, maxSize);
      var b := t1.boxes[id];
      if b.slotList == [] then
        var k := RecordOf(pid);
        Step(t1.(boxes := t1.boxes[id := b.(blockRecv := b.blockRecv + [pid])],
                 procs := t1.procs[k := t1.procs[k].(pending := Receiving(id))]),
             Blocked, [], [])
      else TakeSpec(t1, id, maxSize, zapped)
  }

  /** MboxCondReceive: MboxReceive that answers -2 instead of suspending. */
  function CondReceiveSpec(t: Tables, id: int, maxSize: int, pid: int, zapped: bool): (r: Step)
    requires TablesOk(t) && 0 <= id < MAXMBOX
    ensures TablesOk(r.t)
  {
    if t.boxes[id].status == Empty then Ret(t, -1)
    else if maxSize < 0 then Ret(t, -1)
    else
      var t1 := RegisterReceiver(t, pid, maxSize);
      if t1.boxes[id].slotList == [] then Ret(t1, -2)
      else TakeSpec(t1, id, maxSize, zapped)
  }

  /** MboxRelease: free an idle mailbox, or mark and wake every process
      blocked on it (senders first), leaving the entry in use. */
  function ReleaseSpec(t: Tables, id: int, zapped: bool): (r: Step)
    requires TablesOk(t)
    ensures TablesOk(r.t)
  {
    if id < 0 || id >= MAXMBOX then Ret(t, -1)
    else if t.boxes[id].status == Empty then Ret(t, -1)
    else
      var b := t.boxes[id];
      if b.blockSend == [] && b.blockRecv == [] then
        Ret(t.(boxes := t.boxes[id := ZeroMailbox()]), ZapCode(zapped, 0))
      else
        Step(t.(boxes := t.boxes[id := b.(blockSend := [], blockRecv := [])],
                procs := MarkReleased(MarkReleased(t.procs, b.blockSend), b.blockRecv)),
             Returned(ZapCode(zapped, 0)), b.blockSend + b.blockRecv, [])
  }

  /** A blocked sender that has been woken (it is no longer queued). */
  predicate WokenSender(t: Tables, pid: int)
    requires TablesOk(t)
  {
    var rec := t.procs[RecordOf(pid)];
    rec.pending.Sending? && pid !in t.boxes[rec.pending.box].blockSend
  }

  /** A blocked receiver that has been woken. */
  predicate WokenReceiver(t: Tables, pid: int)
    requires TablesOk(t)
  {
    var rec := t.procs[RecordOf(pid)];
    rec.pending.Receiving? && pid !in t.boxes[rec.pending.box].blockRecv
  }

  /** The rest of MboxSend after blockMe returns: -3 if the mailbox was
      released, otherwise deliver as an unblocked send would. Giving up on a
      mailbox that was freed meanwhile is a correction (see README, Findings). */
  function ResumeSendSpec(t: Tables, pid: int, zapped: bool): (r: Step)
    requires TablesOk(t) && WokenSender(t, pid)
    ensures TablesOk(r.t)
  {
    var k := RecordOf(pid);
    var rec := t.procs[k];
    var t1 := t.(procs := t.procs[k := rec.(pending := Idle)]);
    if rec.mboxReleased then Ret(t1, -3)
    else if t1.boxes[rec.pending.box].status == Empty then Ret(t1, -3)
    else DeliverSpec(t1, rec.pending.box, rec.pending.outgoing, zapped)
  }

  /** The rest of MboxReceive after blockMe returns: -3 if the mailbox was
      released or the caller zapped, otherwise the size the sender stored. */
  function ResumeReceiveSpec(t: Tables, pid: int, zapped: bool): (r: Step)
    requires TablesOk(t) && WokenReceiver(t, pid)
    ensures TablesOk(r.t)
  {
    var k := RecordOf(pid);
    var rec := t.procs[k];
    var t1 := t.(procs := t.procs[k := rec.(pending := Idle)]);
    if rec.mboxReleased || zapped then Ret(t1, -3)
    else Step(t1, Returned(rec.msgSize), [], rec.message)
  }
}
