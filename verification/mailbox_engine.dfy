/** The mailbox layer of phase2/phase2.c as it runs: the three global tables
    are arrays updated in place, and every entry point is proved to do what
    its function in MailboxSpec describes, so the properties proved there
    hold of this code. Interrupt masking and kernel-mode checks are left
    out; getpid() and isZapped() are parameters, and the processes a call
    unblocks are returned in `woken`. */
module MailboxEngine {
  import opened Limits
  import opened Scan
  import opened MailboxState
  import opened MailboxSpec
  import opened MailboxProperties
  import opened Devices

  class MailSystem {
    /** MailBoxTable, SlotTable and MboxProcTable. */
    const boxes: array<MailBox>
    const slots: array<Slot>
    const procs: array<ProcRecord>
    /** Clock interrupts since the clock status was last forwarded. */
    var clockCounter: int

    /** The tables as a value. */
    ghost function State(): Tables
      reads boxes, slots, procs
    {
      Tables(boxes[..], slots[..], procs[..])
    }

    ghost predicate Valid()
      reads this, boxes, slots, procs
    {
      TablesOk(State()) && 0 <= clockCounter <= 4
    }

    /** start1: clear the three tables and create the seven device
        mailboxes. (The source creates the device mailboxes before it clears
        the slot and request tables; MboxCreate reads neither.) */
    constructor ()
      ensures Valid() && fresh(boxes) && fresh(slots) && fresh(procs)
      ensures State() == StartupTables() && clockCounter == 0
    {
      var b := ClearedMailboxes();
      var s := ClearedSlots();
      var p := ClearedRecords();
      boxes, slots, procs := b, s, p;
      clockCounter := 0;
      new;
      CreateDeviceMailboxes();
    }

    /** The loop of start1 that creates mailboxes 0..6 for the interrupt
        handlers with MboxCreate(0, 0). */
    method CreateDeviceMailboxes()
      requires Valid() && State() == InitialTables()
      modifies boxes
      ensures Valid() && State() == StartupTables()
    {
      for i := 0 to DEVICE_MAILBOXES
        invariant Valid()
        invariant State() == CreateDeviceBoxes(InitialTables(), i)
      {
        var _ := Create(0, 0);
      }
    }

    /** MboxCreate. */
    method Create(n: int, size: int) returns (id: int)
      requires Valid()
      modifies boxes
      ensures Valid()
      ensures var st := CreateSpec(old(State()), n, size);
        State() == st.t && Returned(id) == st.out
    {
      if n < 0 {
        return -1;
      }
      if size < 0 || size > MAX_MESSAGE {
        return -1;
      }
      ghost var t0 := State();
      id := FindFreeBox(boxes);
      if id == -1 {
        return -1;
      }
      var b := boxes[id];
      boxes[id] := b.(numSlots := n, slotsUsed := 0, slotSize := size, status := Used);
      assert State() == CreateSpec(t0, n, size).t;
    }

    /** The caller claims its request record (MailboxSpec.Register). */
    method ClaimRecord(pid: int)
      requires Valid()
      modifies procs
      ensures Valid()
      ensures State() == Register(old(State()), pid)
    {
      var k := RecordOf(pid);
      procs[k] := procs[k].(pid := pid, status := Active, mboxReleased := false);
    }

    /** The shared tail of MboxSend and MboxCondSend: hand the message to
        the head receiver, or queue it in the first free slot. */
    method Deliver(id: int, msg: Payload, zapped: bool) returns (out: Outcome, woken: seq<int>)
      requires Valid() && 0 <= id < MAXMBOX && boxes[id].status == Used
      modifies boxes, slots, procs
      ensures Valid()
      ensures var st := DeliverSpec(old(State()), id, msg, zapped);
        State() == st.t && out == st.out && woken == st.woken
    {
      if boxes[id].blockRecv != [] {
        out, woken := HandToReceiver(id, msg, zapped);
      } else {
        out, woken := QueueInSlot(id, msg, zapped);
      }
    }

    /** Deliver with a receiver waiting: the message goes to its record. */
    method HandToReceiver(id: int, msg: Payload, zapped: bool) returns (out: Outcome, woken: seq<int>)
      requires Valid() && 0 <= id < MAXMBOX && boxes[id].status == Used && boxes[id].blockRecv != []
      modifies boxes, procs
      ensures Valid()
      ensures var st := DeliverSpec(old(State()), id, msg, zapped);
        State() == st.t && out == st.out && woken == st.woken
    {
      var rcv := boxes[id].blockRecv[0];
      var k := RecordOf(rcv);
      if |msg| > procs[k].msgSize {
        return Returned(-1), [];
      }
      procs[k] := procs[k].(message := msg, msgSize := |msg|);
      boxes[id] := boxes[id].(blockRecv := boxes[id].blockRecv[1..]);
      return Returned(ZapCode(zapped, 0)), [rcv];
    }

    /** Deliver with no receiver waiting: the message takes the first free
        slot and joins the end of the mailbox's queue. */
    method QueueInSlot(id: int, msg: Payload, zapped: bool) returns (out: Outcome, woken: seq<int>)
      requires Valid() && 0 <= id < MAXMBOX && boxes[id].status == Used && boxes[id].blockRecv == []
      modifies boxes, slots
      ensures Valid()
      ensures var st := DeliverSpec(old(State()), id, msg, zapped);
        State() == st.t && out == st.out && woken == st.woken
    {
      ghost var t0 := State();
      var s := FindFreeSlot(slots);
      if s == -1 {
        return Halted, [];
      }
      var b := boxes[id];
      slots[s] := Slot(Used, id, msg);
      boxes[id] := b.(slotList := b.slotList + [s], slotsUsed := b.slotsUsed + 1);
      assert State() == DeliverSpec(t0, id, msg, zapped).t;
      return Returned(ZapCode(zapped, 0)), [];
    }

    /** MboxSend up to the point where it either finishes or suspends. */
    method Send(id: int, msg: Payload, pid: int, zapped: bool) returns (out: Outcome, woken: seq<int>)
      requires Valid()
      modifies boxes, slots, procs
      ensures Valid()
      ensures var st := SendSpec(old(State()), id, msg, pid, zapped);
        State() == st.t && out == st.out && woken == st.woken
    {
      if id < 0 || id >= MAXMBOX {
        return Returned(-1), [];
      }
      if |msg| > boxes[id].slotSize {
        return Returned(-1), [];
      }
      ClaimRecord(pid);
      if boxes[id].numSlots <= boxes[id].slotsUsed && boxes[id].blockRecv == [] {
        boxes[id] := boxes[id].(blockSend := boxes[id].blockSend + [pid]);
        var k := RecordOf(pid);
        procs[k] := procs[k].(pending := Sending(id, msg));
        return Blocked, [];
      }
      out, woken := Deliver(id, msg, zapped);
    }

    /** The rest of MboxSend once a blocked sender runs again. */
    method ResumeSend(pid: int, zapped: bool) returns (out: Outcome, woken: seq<int>)
      requires Valid() && WokenSender(State(), pid)
      modifies boxes, slots, procs
      ensures Valid()
      ensures var st := ResumeSendSpec(old(State()), pid, zapped);
        State() == st.t && out == st.out && woken == st.woken
    {
      var k := RecordOf(pid);
      var rec := procs[k];
      procs[k] := rec.(pending := Idle);
      if rec.mboxReleased {
        return Returned(-3), [];
      }
      if boxes[rec.pending.box].status == Empty {
        return Returned(-3), [];
      }
      out, woken := Deliver(rec.pending.box, rec.pending.outgoing, zapped);
    }

    /** MboxCondSend. */
    method CondSend(id: int, msg: Payload, pid: int, zapped: bool) returns (code: int, woken: seq<int>)
      requires Valid()
      modifies boxes, slots, procs
      ensures Valid()
      ensures var st := CondSendSpec(old(State()), id, msg, pid, zapped);
        State() == st.t && Returned(code) == st.out && woken == st.woken
    {
      if id < 0 || id >= MAXMBOX {
        return -1, [];
      }
      if boxes[id].numSlots != 0 && |msg| > boxes[id].slotSize {
        return -1, [];
      }
      ClaimRecord(pid);
      if boxes[id].numSlots != 0 && boxes[id].numSlots == boxes[id].slotsUsed {
        return -2, [];
      }
      if boxes[id].blockRecv == [] && boxes[id].numSlots == 0 {
        return -1, [];
      }
      var out;
      out, woken := Deliver(id, msg, zapped);
      if out == Halted {
        return -2, [];
      }
      code := out.code;
    }

    /** The shared tail of MboxReceive and MboxCondReceive when a message is
        queued. */
    method Take(id: int, maxSize: int, zapped: bool) returns (code: int, woken: seq<int>, data: Payload)
      requires Valid() && 0 <= id < MAXMBOX && boxes[id].slotList != []
      modifies boxes, slots
      ensures Valid()
      ensures var st := TakeSpec(old(State()), id, maxSize, zapped);
        State() == st.t && Returned(code) == st.out && woken == st.woken && data == st.data
    {
      var s := boxes[id].slotList[0];
      var m := slots[s].message;
      if |m| > maxSize {
        return -1, [], [];
      }
      data := m;
      boxes[id] := boxes[id].(slotList := boxes[id].slotList[1..], slotsUsed := boxes[id].slotsUsed - 1);
      slots[s] := ZeroSlot(slots[s]);
      woken := [];
      if boxes[id].blockSend != [] {
        woken := [boxes[id].blockSend[0]];
        boxes[id] := boxes[id].(blockSend := boxes[id].blockSend[1..]);
      }
      code := ZapCode(zapped, |m|);
    }

    /** MboxReceive up to the point where it either finishes or suspends. */
    method Receive(id: int, maxSize: int, pid: int, zapped: bool) returns (out: Outcome, woken: seq<int>, data: Payload)
      requires Valid() && 0 <= id < MAXMBOX
      modifies boxes, slots, procs
      ensures Valid()
      ensures var st := ReceiveSpec(old(State()), id, maxSize, pid, zapped);
        State() == st.t && out == st.out && woken == st.woken && data == st.data
    {
      if boxes[id].status == Empty {
        return Returned(-1), [], [];
      }
      if maxSize < 0 {
        return Returned(-1), [], [];
      }
      ClaimRecord(pid);
      var k := RecordOf(pid);
      procs[k] := procs[k].(msgSize := maxSize);
      if boxes[id].slotList == [] {
        boxes[id] := boxes[id].(blockRecv := boxes[id].blockRecv + [pid]);
        procs[k] := procs[k].(pending := Receiving(id));
        return Blocked, [], [];
      }
      var code;
      code, woken, data := Take(id, maxSize, zapped);
      out := Returned(code);
    }

    /** The rest of MboxReceive once a blocked receiver runs again. */
    method ResumeReceive(pid: int, zapped: bool) returns (code: int, data: Payload)
      requires Valid() && WokenReceiver(State(), pid)
      modifies procs
      ensures Valid()
      ensures var st := ResumeReceiveSpec(old(State()), pid, zapped);
        State() == st.t && Returned(code) == st.out && data == st.data
    {
      var k := RecordOf(pid);
      var rec := procs[k];
      procs[k] := rec.(pending := Idle);
      if rec.mboxReleased || zapped {
        return -3, [];
      }
      return rec.msgSize, rec.message;
    }

    /** MboxCondReceive. */
    method CondReceive(id: int, maxSize: int, pid: int, zapped: bool) returns (code: int, woken: seq<int>, data: Payload)
      requires Valid() && 0 <= id < MAXMBOX
      modifies boxes, slots, procs
      ensures Valid()
      ensures var st := CondReceiveSpec(old(State()), id, maxSize, pid, zapped);
        State() == st.t && Returned(code) == st.out && woken == st.woken && data == st.data
    {
      if boxes[id].status == Empty {
        return -1, [], [];
      }
      if maxSize < 0 {
        return -1, [], [];
      }
      ClaimRecord(pid);
      var k := RecordOf(pid);
      procs[k] := procs[k].(msgSize := maxSize);
      if boxes[id].slotList == [] {
        return -2, [], [];
      }
      code, woken, data := Take(id, maxSize, zapped);
    }

    /** The first drain loop of MboxRelease: mark and wake every blocked
        sender, longest-waiting first. */
    method DrainSenders(id: int) returns (senders: seq<int>)
      requires 0 <= id < boxes.Length && procs.Length == MAXPROC
      modifies boxes, procs
      ensures senders == old(boxes[id].blockSend)
      ensures boxes[..] == old(boxes[..])[id := old(boxes[id]).(blockSend := [])]
      ensures procs[..] == MarkReleased(old(procs[..]), senders)
    {
      senders := [];
      while boxes[id].blockSend != []
        invariant |senders| <= |old(boxes[id].blockSend)|
        invariant senders == old(boxes[id].blockSend)[..|senders|]
        invariant boxes[..] == old(boxes[..])[id := old(boxes[id]).(blockSend := old(boxes[id].blockSend)[|senders|..])]
        invariant procs[..] == MarkReleased(old(procs[..]), senders)
        decreases |boxes[id].blockSend|
      {
        var p := boxes[id].blockSend[0];
        var k := RecordOf(p);
        procs[k] := procs[k].(mboxReleased := true);
        boxes[id] := boxes[id].(blockSend := boxes[id].blockSend[1..]);
        assert (senders + [p])[..|senders|] == senders;
        senders := senders + [p];
      }
    }

    /** The second drain loop of MboxRelease: the same for the blocked
        receivers. */
    method DrainReceivers(id: int) returns (receivers: seq<int>)
      requires 0 <= id < boxes.Length && procs.Length == MAXPROC
      modifies boxes, procs
      ensures receivers == old(boxes[id].blockRecv)
      ensures boxes[..] == old(boxes[..])[id := old(boxes[id]).(blockRecv := [])]
      ensures procs[..] == MarkReleased(old(procs[..]), receivers)
    {
      receivers := [];
      while boxes[id].blockRecv != []
        invariant |receivers| <= |old(boxes[id].blockRecv)|
        invariant receivers == old(boxes[id].blockRecv)[..|receivers|]
        invariant boxes[..] == old(boxes[..])[id := old(boxes[id]).(blockRecv := old(boxes[id].blockRecv)[|receivers|..])]
        invariant procs[..] == MarkReleased(old(procs[..]), receivers)
        decreases |boxes[id].blockRecv|
      {
        var p := boxes[id].blockRecv[0];
        var k := RecordOf(p);
        procs[k] := procs[k].(mboxReleased := true);
        boxes[id] := boxes[id].(blockRecv := boxes[id].blockRecv[1..]);
        assert (receivers + [p])[..|receivers|] == receivers;
        receivers := receivers + [p];
      }
    }

    /** MboxRelease. */
    method Release(id: int, zapped: bool) returns (code: int, woken: seq<int>)
      requires Valid()
      modifies boxes, procs
      ensures Valid()
      ensures var st := ReleaseSpec(old(State()), id, zapped);
        State() == st.t && Returned(code) == st.out && woken == st.woken
    {
      if id < 0 || id >= MAXMBOX {
        return -1, [];
      }
      if boxes[id].status == Empty {
        return -1, [];
      }
      if boxes[id].blockSend == [] && boxes[id].blockRecv == [] {
        boxes[id] := ZeroMailbox();
        return ZapCode(zapped, 0), [];
      }
      ghost var t0 := State();
      ghost var st := ReleaseSpec(t0, id, zapped);
      var senders := DrainSenders(id);
      var receivers := DrainReceivers(id);
      assert boxes[..] == st.t.boxes;
      assert procs[..] == st.t.procs;
      return ZapCode(zapped, 0), senders + receivers;
    }

    /** check_io: 1 when a process waits on one of the device mailboxes. */
    method CheckIo() returns (r: int)
      requires boxes.Length == MAXMBOX
      ensures r == 0 || r == 1
      ensures r == 1 <==> exists i :: 0 <= i < DEVICE_MAILBOXES && boxes[i].blockRecv != []
    {
      for i := 0 to DEVICE_MAILBOXES
        invariant forall j :: 0 <= j < i ==> boxes[j].blockRecv == []
      {
        if boxes[i].blockRecv != [] {
          return 1;
        }
      }
      return 0;
    }

    /** waitDevice: receive a four-byte status on the device's mailbox;
        -1 when the receive was aborted, 0 otherwise. */
    method WaitDevice(d: Device, pid: int, zapped: bool) returns (out: Outcome, woken: seq<int>, status: Payload)
      requires Valid() && ValidDevice(d)
      modifies boxes, slots, procs
      ensures Valid()
      ensures var st := ReceiveSpec(old(State()), WaitMailbox(d), INT_SIZE, pid, zapped);
        && State() == st.t && woken == st.woken && status == st.data
        && out == (if st.out.Returned? then Returned(WaitResult(st.out.code)) else st.out)
    {
      out, woken, status := Receive(WaitMailbox(d), INT_SIZE, pid, zapped);
      if out.Returned? {
        out := Returned(WaitResult(out.code));
      }
    }

    /** The rest of waitDevice once its receive resumes. */
    method ResumeWaitDevice(pid: int, zapped: bool) returns (r: int, status: Payload)
      requires Valid() && WokenReceiver(State(), pid)
      modifies procs
      ensures Valid()
      ensures var st := ResumeReceiveSpec(old(State()), pid, zapped);
        State() == st.t && r == WaitResult(st.out.code) && status == st.data
    {
      var code;
      code, status := ResumeReceive(pid, zapped);
      r := WaitResult(code);
    }

    /** clockHandler2: count the tick and forward the clock status, an int,
        on every fifth. A wrong device or unit halts the machine (`halted`). */
    method ClockHandler(dev: Device, unit: int, status: Payload, pid: int, zapped: bool) returns (halted: bool, woken: seq<int>)
      requires Valid() && |status| == INT_SIZE
      modifies this, boxes, slots, procs
      ensures Valid()
      ensures halted <==> dev != Clock || unit != 0
      ensures halted ==> State() == old(State()) && clockCounter == old(clockCounter) && woken == []
      ensures !halted ==> clockCounter == NextClockCount(old(clockCounter))
      ensures !halted && !ClockFires(old(clockCounter)) ==> State() == old(State()) && woken == []
      ensures !halted && ClockFires(old(clockCounter)) ==>
        var st := CondSendSpec(old(State()), HandlerMailbox(Clock), status, pid, zapped);
        State() == st.t && woken == st.woken
    {
      if dev != Clock || unit != 0 {
        return true, [];
      }
      var count := clockCounter + 1;
      woken := [];
      if count >= 5 {
        var code;
        code, woken := CondSend(HandlerMailbox(Clock), status, pid, zapped);
        count := 0;
      }
      clockCounter := count;
      halted := false;
    }

    /** diskHandler and termHandler: forward the device status on the unit's
        mailbox; the status is an int. A unit out of range halts the
        machine. */
    method DeviceHandler(d: Device, status: Payload, pid: int, zapped: bool) returns (halted: bool, woken: seq<int>)
      requires Valid() && !d.Clock? && |status| == INT_SIZE
      modifies boxes, slots, procs
      ensures Valid()
      ensures halted <==> !ValidDevice(d)
      ensures halted ==> State() == old(State()) && woken == []
      ensures !halted ==>
        var st := CondSendSpec(old(State()), HandlerMailbox(d), status, pid, zapped);
        State() == st.t && woken == st.woken
    {
      if !ValidDevice(d) {
        return true, [];
      }
      var code;
      code, woken := CondSend(HandlerMailbox(d), status, pid, zapped);
      halted := false;
    }
  }

  /** The table search of MboxCreate: the first EMPTY mailbox, or -1. */
  method FindFreeBox(boxes: array<MailBox>) returns (i: int)
    ensures i == FirstWhere(boxes[..], BoxIsFree)
  {
    i := 0;
    while i < boxes.Length && boxes[i].status != Empty
      invariant 0 <= i <= boxes.Length
      invariant forall j :: 0 <= j < i ==> !BoxIsFree(boxes[j])
    {
      i := i + 1;
    }
    if i == boxes.Length {
      i := -1;
    } else {
      FirstWhereAt(boxes[..], BoxIsFree, i);
    }
  }

  /** The slot search of MboxSend: the first EMPTY slot, or -1. */
  method FindFreeSlot(slots: array<Slot>) returns (s: int)
    ensures s == FirstWhere(slots[..], SlotIsFree)
  {
    s := 0;
    while s < slots.Length && slots[s].status != Empty
      invariant 0 <= s <= slots.Length
      invariant forall j :: 0 <= j < s ==> !SlotIsFree(slots[j])
    {
      s := s + 1;
    }
    if s == slots.Length {
      s := -1;
    } else {
      FirstWhereAt(slots[..], SlotIsFree, s);
    }
  }

  /** The zeroMailbox loop of start1 on a fresh table. */
  method ClearedMailboxes() returns (b: array<MailBox>)
    ensures fresh(b) && b[..] == InitialTables().boxes
  {
    b := new MailBox[MAXMBOX];
    for i := 0 to MAXMBOX
      invariant forall j :: 0 <= j < i ==> b[j] == ZeroMailbox()
    {
      b[i] := ZeroMailbox();
    }
  }

  /** The zeroSlot loop of start1 on a fresh pool. */
  method ClearedSlots() returns (s: array<Slot>)
    ensures fresh(s) && s[..] == InitialTables().slots
  {
    s := new Slot[MAXSLOTS];
    for i := 0 to MAXSLOTS
      invariant forall j :: 0 <= j < i ==> s[j] == InitialSlot()
    {
      s[i] := InitialSlot();
    }
  }

  /** The zeroMboxProc loop of start1 on a fresh request table. */
  method ClearedRecords() returns (p: array<ProcRecord>)
    ensures fresh(p) && p[..] == InitialTables().procs
  {
    p := new ProcRecord[MAXPROC];
    for i := 0 to MAXPROC
      invariant forall j :: 0 <= j < i ==> p[j] == ZeroMboxProc()
    {
      p[i] := ZeroMboxProc();
    }
  }
}
