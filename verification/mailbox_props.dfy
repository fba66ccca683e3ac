/** What the mailbox operations promise, proved about their specifications
    in MailboxSpec: argument checking, when a call suspends, first-in
    first-out delivery, direct hand-off to a waiting receiver, the
    non-blocking variants' codes, and teardown of a mailbox with waiters. */
module MailboxProperties {
  import opened Limits
  import opened Scan
  import opened MailboxState
  import opened MailboxSpec

  /** A mailbox whose id is in the table and whose entry is in use. */
  predicate Live(t: Tables, id: int)
    requires WellFormed(t)
  {
    0 <= id < MAXMBOX && t.boxes[id].status == Used
  }

  // ---------------------------------------------------------------- create

  /** MboxCreate rejects a negative capacity or an out-of-range size limit
      without touching the table; otherwise it takes the lowest free entry
      and leaves it in use, empty, with the requested capacity and limit;
      and it answers -1 exactly when no entry is free. */
  lemma CreateFirstFit(t: Tables, n: int, size: int)
    requires TablesOk(t)
    ensures var st := CreateSpec(t, n, size);
      && st.woken == [] && st.out.Returned?
      && (n < 0 || size < 0 || size > MAX_MESSAGE ==> st.t == t && st.out.code == -1)
      && (0 <= n && 0 <= size <= MAX_MESSAGE ==>
            && (st.out.code == -1 <==> forall j :: 0 <= j < MAXMBOX ==> t.boxes[j].status == Used)
            && (st.out.code != -1 ==>
                  var i := st.out.code;
                  && 0 <= i < MAXMBOX && t.boxes[i].status == Empty
                  && (forall j :: 0 <= j < i ==> t.boxes[j].status == Used)
                  && st.t == t.(boxes := t.boxes[i := MailBox(Used, n, 0, size, [], [], [])])))
  {
  }

  /** The boxes start1 creates for the interrupt handlers, in order. */
  function CreateDeviceBoxes(t: Tables, n: nat): (t': Tables)
    requires TablesOk(t)
    ensures TablesOk(t')
  {
    if n == 0 then t else CreateSpec(CreateDeviceBoxes(t, n - 1), 0, 0).t
  }

  /** Mailboxes 0..6: the clock, two disk units and four terminal units. */
  const DEVICE_MAILBOXES: nat := 7

  /** The mailbox tables once start1 has created the device mailboxes. */
  function StartupTables(): (t: Tables)
    ensures TablesOk(t)
  {
    CreateDeviceBoxes(InitialTables(), DEVICE_MAILBOXES)
  }

  /** A mailbox as MboxCreate(0, 0) leaves it: a rendezvous mailbox for
      messages of any size (the size check is skipped for capacity 0). */
  function DeviceBox(): MailBox {
    MailBox(Used, 0, 0, 0, [], [], [])
  }

  /** After the first n creations on fresh tables, entries 0..n-1 are the
      device mailboxes and every other entry is still free. */
  lemma {:induction false} DeviceBoxesCreated(n: nat)
    requires n <= MAXMBOX
    ensures var t := CreateDeviceBoxes(InitialTables(), n);
      && (forall j :: 0 <= j < n ==> t.boxes[j] == DeviceBox())
      && (forall j :: n <= j < MAXMBOX ==> t.boxes[j] == ZeroMailbox())
      && t.slots == InitialTables().slots && t.procs == InitialTables().procs
  {
    if n > 0 {
      DeviceBoxesCreated(n - 1);
      DeviceBoxStep(CreateDeviceBoxes(InitialTables(), n - 1), n);
    }
  }

  /** One more MboxCreate(0, 0) on tables whose first n - 1 entries are
      device mailboxes and whose others are free makes entry n - 1 one too. */
  lemma DeviceBoxStep(t: Tables, n: nat)
    requires TablesOk(t) && 0 < n <= MAXMBOX
    requires forall j :: 0 <= j < n - 1 ==> t.boxes[j] == DeviceBox()
    requires forall j :: n - 1 <= j < MAXMBOX ==> t.boxes[j] == ZeroMailbox()
    ensures var t' := CreateSpec(t, 0, 0).t;
      && (forall j :: 0 <= j < n ==> t'.boxes[j] == DeviceBox())
      && (forall j :: n <= j < MAXMBOX ==> t'.boxes[j] == ZeroMailbox())
      && t'.slots == t.slots && t'.procs == t.procs
  {
    FirstWhereAt(t.boxes, BoxIsFree, n - 1);
    CreateDeviceBoxAt(t, n - 1);
  }

  /** MboxCreate(0, 0) with entry i the lowest free one turns exactly that
      entry into a device mailbox. */
  lemma CreateDeviceBoxAt(t: Tables, i: int)
    requires TablesOk(t) && 0 <= i < MAXMBOX && FirstWhere(t.boxes, BoxIsFree) == i
    ensures CreateSpec(t, 0, 0).t == t.(boxes := t.boxes[i := DeviceBox()])
  {
    assert t.boxes[i] == ZeroMailbox();
  }

  /** After d mailboxes are created on fresh tables, the next creation with
      valid arguments gets id d. */
  lemma {:induction false} NextCreateAfterDevices(d: nat, n: int, size: int)
    requires d < MAXMBOX && 0 <= n && 0 <= size <= MAX_MESSAGE
    ensures CreateSpec(CreateDeviceBoxes(InitialTables(), d), n, size).out == Returned(d)
  {
    DeviceBoxesCreated(d);
    var t := CreateDeviceBoxes(InitialTables(), d);
    FirstWhereAt(t.boxes, BoxIsFree, d);
  }

  /** start1 creates mailboxes 0..6 first, so the first mailbox created
      afterwards with valid arguments gets id 7. */
  lemma FirstUserMailboxIsSeven(n: int, size: int)
    requires 0 <= n && 0 <= size <= MAX_MESSAGE
    ensures CreateSpec(StartupTables(), n, size).out == Returned(7)
  {
    NextCreateAfterDevices(DEVICE_MAILBOXES, n, size);
  }

  /** Mailboxes 0..6, the device mailboxes, are in use. */
  predicate DeviceBoxesUsed(t: Tables)
    requires TablesOk(t)
  {
    forall j :: 0 <= j < DEVICE_MAILBOXES ==> t.boxes[j].status == Used
  }

  /** start1 leaves the device mailboxes in use. */
  lemma StartupDeviceBoxesUsed()
    ensures DeviceBoxesUsed(StartupTables())
  {
    DeviceBoxesCreated(DEVICE_MAILBOXES);
  }

  /** While the device mailboxes are in use, MboxCreate answers -1 or an
      id of 7 or more. */
  lemma CreateAvoidsDeviceIds(t: Tables, n: int, size: int)
    requires TablesOk(t) && DeviceBoxesUsed(t)
    ensures var r := CreateSpec(t, n, size);
      r.out.Returned? && (r.out.code == -1 || DEVICE_MAILBOXES <= r.out.code < MAXMBOX)
  {
  }

  /** No mailbox that is in use becomes free. */
  predicate KeepsUsed(t: Tables, t': Tables)
    requires TablesOk(t) && TablesOk(t')
  {
    forall j :: 0 <= j < MAXMBOX && t.boxes[j].status == Used ==> t'.boxes[j].status == Used
  }

  /** Keeping every used mailbox in use keeps the device mailboxes in use. */
  lemma KeepsUsedKeepsDevices(t: Tables, t': Tables)
    requires TablesOk(t) && TablesOk(t') && KeepsUsed(t, t') && DeviceBoxesUsed(t)
    ensures DeviceBoxesUsed(t')
  {
  }

  /** Only MboxRelease frees a mailbox. MboxCreate keeps every used
      mailbox in use. */
  lemma CreateKeepsUsed(t: Tables, n: int, size: int)
    requires TablesOk(t)
    ensures KeepsUsed(t, CreateSpec(t, n, size).t)
  {
  }

  /** The shared tails of the send and receive calls keep every used
      mailbox in use. */
  lemma TailsKeepUsed(t: Tables, id: int, msg: Payload, maxSize: int, zapped: bool)
    requires TablesOk(t) && 0 <= id < MAXMBOX
    ensures t.boxes[id].status == Used ==> KeepsUsed(t, DeliverSpec(t, id, msg, zapped).t)
    ensures t.boxes[id].slotList != [] ==> KeepsUsed(t, TakeSpec(t, id, maxSize, zapped).t)
  {
  }

  /** MboxSend keeps every used mailbox in use. */
  lemma {:induction false} SendKeepsUsed(t: Tables, id: int, msg: Payload, pid: int, zapped: bool)
    requires TablesOk(t)
    ensures KeepsUsed(t, SendSpec(t, id, msg, pid, zapped).t)
  {
    if 0 <= id < MAXMBOX && |msg| <= t.boxes[id].slotSize {
      var t1 := Register(t, pid);
      assert t1.boxes == t.boxes;
      var b := t1.boxes[id];
      if !(b.numSlots <= b.slotsUsed && b.blockRecv == []) {
        TailsKeepUsed(t1, id, msg, 0, zapped);
      }
    }
  }

  /** MboxCondSend keeps every used mailbox in use. */
  lemma {:induction false} CondSendKeepsUsed(t: Tables, id: int, msg: Payload, pid: int, zapped: bool)
    requires TablesOk(t)
    ensures KeepsUsed(t, CondSendSpec(t, id, msg, pid, zapped).t)
  {
    if 0 <= id < MAXMBOX && !(t.boxes[id].numSlots != 0 && |msg| > t.boxes[id].slotSize) {
      var t1 := Register(t, pid);
      assert t1.boxes == t.boxes;
      var b := t1.boxes[id];
      if !(b.numSlots != 0 && b.numSlots == b.slotsUsed) && !(b.blockRecv == [] && b.numSlots == 0) {
        TailsKeepUsed(t1, id, msg, 0, zapped);
      }
    }
  }

  /** MboxReceive and MboxCondReceive keep every used mailbox in use. */
  lemma {:induction false} ReceiveKeepsUsed(t: Tables, id: int, maxSize: int, pid: int, zapped: bool)
    requires TablesOk(t) && 0 <= id < MAXMBOX
    ensures KeepsUsed(t, ReceiveSpec(t, id, maxSize, pid, zapped).t)
    ensures KeepsUsed(t, CondReceiveSpec(t, id, maxSize, pid, zapped).t)
  {
    if maxSize >= 0 {
      var t1 := RegisterReceiver(t, pid, maxSize);
      assert t1.boxes == t.boxes;
      TailsKeepUsed(t1, id, [], maxSize, zapped);
    }
  }

  /** The rest of a suspended MboxSend or MboxReceive keeps every used
      mailbox in use. */
  lemma {:induction false} ResumeKeepsUsed(t: Tables, pid: int, zapped: bool)
    requires TablesOk(t)
    ensures WokenSender(t, pid) ==> KeepsUsed(t, ResumeSendSpec(t, pid, zapped).t)
    ensures WokenReceiver(t, pid) ==> KeepsUsed(t, ResumeReceiveSpec(t, pid, zapped).t)
  {
    if WokenSender(t, pid) {
      var k := RecordOf(pid);
      var rec := t.procs[k];
      var t1 := t.(procs := t.procs[k := rec.(pending := Idle)]);
      TailsKeepUsed(t1, rec.pending.box, rec.pending.outgoing, 0, zapped);
    }
  }

  /** MboxRelease frees only the mailbox it names, so releasing a mailbox
      other than 0..6 keeps the device mailboxes in use. */
  lemma ReleaseKeepsOtherMailboxes(t: Tables, id: int, zapped: bool)
    requires TablesOk(t)
    ensures forall j :: 0 <= j < MAXMBOX && j != id && t.boxes[j].status == Used ==>
              ReleaseSpec(t, id, zapped).t.boxes[j].status == Used
    ensures DeviceBoxesUsed(t) && !(0 <= id < DEVICE_MAILBOXES) ==> DeviceBoxesUsed(ReleaseSpec(t, id, zapped).t)
  {
  }

  // ------------------------------------------------------------------ send

  /** MboxSend and MboxCondSend answer -1 and change nothing for an id
      outside the table or, on an entry with a size check, a message larger
      than the mailbox's limit; a free entry (limit -1) rejects every message. */
  lemma SendRejectsBadArguments(t: Tables, id: int, msg: Payload, pid: int, zapped: bool)
    requires TablesOk(t)
    ensures id < 0 || id >= MAXMBOX || |msg| > t.boxes[id].slotSize ==>
              SendSpec(t, id, msg, pid, zapped) == Ret(t, -1)
    ensures id < 0 || id >= MAXMBOX || (t.boxes[id].numSlots != 0 && |msg| > t.boxes[id].slotSize) ==>
              CondSendSpec(t, id, msg, pid, zapped) == Ret(t, -1)
    ensures 0 <= id < MAXMBOX && t.boxes[id].status == Empty ==>
              SendSpec(t, id, msg, pid, zapped) == Ret(t, -1) && CondSendSpec(t, id, msg, pid, zapped) == Ret(t, -1)
  {
  }

  /** Once its arguments pass, MboxSend suspends exactly when the mailbox is
      full and no receiver waits; the caller is then queued last among the
      blocked senders, its record is claimed with the message pending, and
      no other mailbox, slot or record changes. */
  lemma {:induction false} SendBlocksExactlyWhenFull(t: Tables, id: int, msg: Payload, pid: int, zapped: bool)
    requires TablesOk(t) && 0 <= id < MAXMBOX && |msg| <= t.boxes[id].slotSize
    ensures var st := SendSpec(t, id, msg, pid, zapped);
      && (st.out == Blocked <==> t.boxes[id].numSlots <= t.boxes[id].slotsUsed && t.boxes[id].blockRecv == [])
      && (st.out == Blocked ==>
            && st.t.boxes == t.boxes[id := t.boxes[id].(blockSend := t.boxes[id].blockSend + [pid])]
            && st.t.slots == t.slots && st.woken == []
            && st.t.procs[RecordOf(pid)] == t.procs[RecordOf(pid)].(pid := pid, status := Active,
                 mboxReleased := false, pending := Sending(id, msg))
            && forall k :: 0 <= k < MAXPROC && k != RecordOf(pid) ==> st.t.procs[k] == t.procs[k])
  {
    var b := t.boxes[id];
    if !(b.numSlots <= b.slotsUsed && b.blockRecv == []) {
      assert b.status == Used;
      var st := DeliverSpec(Register(t, pid), id, msg, zapped);
      assert st.out != Blocked;
    }
  }

  /** With a receiver waiting, a send that gets past its checks hands the
      message to the longest-waiting receiver only: it fails with -1 if
      that receiver's buffer is too small, and otherwise stores the message
      and its size in the receiver's record, dequeues and wakes it, and
      leaves the slot pool and the queued messages untouched. */
  lemma HandoffToHeadReceiver(t: Tables, id: int, msg: Payload, zapped: bool)
    requires TablesOk(t) && Live(t, id) && t.boxes[id].blockRecv != []
    ensures var st := DeliverSpec(t, id, msg, zapped);
      var rcv := t.boxes[id].blockRecv[0];
      && (|msg| > t.procs[RecordOf(rcv)].msgSize ==> st == Ret(t, -1))
      && (|msg| <= t.procs[RecordOf(rcv)].msgSize ==>
            && st.out == Returned(ZapCode(zapped, 0)) && st.woken == [rcv]
            && st.t.slots == t.slots
            && st.t.boxes == t.boxes[id := t.boxes[id].(blockRecv := t.boxes[id].blockRecv[1..])]
            && st.t.procs[RecordOf(rcv)].message == msg
            && st.t.procs[RecordOf(rcv)].msgSize == |msg|
            && forall k :: 0 <= k < MAXPROC && k != RecordOf(rcv) ==> st.t.procs[k] == t.procs[k])
  {
  }

  /** With no receiver waiting and a free slot, a delivered message is
      queued after every message already queued, and the count of queued
      messages grows by one; messages of every other mailbox are unchanged. */
  lemma {:induction false} BufferedSendAppends(t: Tables, id: int, msg: Payload, zapped: bool)
    requires TablesOk(t) && Live(t, id) && t.boxes[id].blockRecv == []
    requires FirstWhere(t.slots, SlotIsFree) != -1
    ensures var st := DeliverSpec(t, id, msg, zapped);
      && st.out == Returned(ZapCode(zapped, 0)) && st.woken == []
      && Messages(st.t, id) == Messages(t, id) + [msg]
      && st.t.boxes[id].slotsUsed == t.boxes[id].slotsUsed + 1
      && st.t.boxes[id].blockSend == t.boxes[id].blockSend
      && (forall j :: 0 <= j < MAXMBOX && j != id ==> Messages(st.t, j) == Messages(t, j))
  {
    var st := DeliverSpec(t, id, msg, zapped);
    var s := FirstWhere(t.slots, SlotIsFree);
    var x := Slot(Used, id, msg);
    assert forall j :: 0 <= j < MAXMBOX ==> s !in t.boxes[j].slotList;
    PayloadsFrame(t.boxes[id].slotList, t.slots, s, x);
    PayloadsAppend(t.boxes[id].slotList, s, t.slots[s := x]);
    forall j | 0 <= j < MAXMBOX && j != id
      ensures Messages(st.t, j) == Messages(t, j)
    {
      PayloadsFrame(t.boxes[j].slotList, t.slots, s, x);
    }
  }

  /** MboxSend halts the machine, and MboxCondSend answers -2, when a
      message must be queued and the slot pool is exhausted; neither
      changes a mailbox or a slot. */
  lemma PoolExhausted(t: Tables, id: int, msg: Payload, pid: int, zapped: bool)
    requires TablesOk(t) && Live(t, id) && |msg| <= t.boxes[id].slotSize
    requires t.boxes[id].slotsUsed < t.boxes[id].numSlots && t.boxes[id].blockRecv == []
    requires FirstWhere(t.slots, SlotIsFree) == -1
    ensures var st := SendSpec(t, id, msg, pid, zapped);
      st.out == Halted && st.t.boxes == t.boxes && st.t.slots == t.slots
    ensures var st := CondSendSpec(t, id, msg, pid, zapped);
      st.out == Returned(-2) && st.t.boxes == t.boxes && st.t.slots == t.slots
  {
  }

  // --------------------------------------------------------- conditional send

  /** MboxCondSend never suspends and never queues anyone: the only change
      it makes to any blocked list is dequeuing the receiver it hands off to. */
  lemma CondSendNeverBlocks(t: Tables, id: int, msg: Payload, pid: int, zapped: bool)
    requires TablesOk(t)
    ensures var st := CondSendSpec(t, id, msg, pid, zapped);
      && st.out.Returned?
      && forall j :: 0 <= j < MAXMBOX ==>
           && st.t.boxes[j].blockSend == t.boxes[j].blockSend
           && (st.t.boxes[j].blockRecv == t.boxes[j].blockRecv || st.t.boxes[j].blockRecv == t.boxes[j].blockRecv[1..])
  {
    if 0 <= id < MAXMBOX && !(t.boxes[id].numSlots != 0 && |msg| > t.boxes[id].slotSize) {
      var t1 := Register(t, pid);
      var b := t1.boxes[id];
      if !(b.numSlots != 0 && b.numSlots == b.slotsUsed) && !(b.blockRecv == [] && b.numSlots == 0) {
        var d := DeliverSpec(t1, id, msg, zapped);
        assert d.t.boxes == t.boxes[id := d.t.boxes[id]];
        assert d.t.boxes[id].blockSend == b.blockSend;
      }
    }
  }

  /** The codes of MboxCondSend where MboxSend would suspend: -2 for a full
      mailbox with capacity, -1 for a rendezvous mailbox nobody waits on;
      in both cases no mailbox and no slot changes. */
  lemma CondSendWouldBlock(t: Tables, id: int, msg: Payload, pid: int, zapped: bool)
    requires TablesOk(t) && Live(t, id)
    requires t.boxes[id].numSlots == 0 || |msg| <= t.boxes[id].slotSize
    ensures var st := CondSendSpec(t, id, msg, pid, zapped);
      && (t.boxes[id].numSlots > 0 && t.boxes[id].numSlots == t.boxes[id].slotsUsed ==>
            st.out == Returned(-2) && st.t.boxes == t.boxes && st.t.slots == t.slots)
      && (t.boxes[id].numSlots == 0 && t.boxes[id].blockRecv == [] ==>
            st.out == Returned(-1) && st.t.boxes == t.boxes && st.t.slots == t.slots)
  {
  }

  // --------------------------------------------------------------- receive

  /** MboxReceive and MboxCondReceive answer -1 and change nothing for a
      free mailbox or a negative buffer size. */
  lemma ReceiveRejectsBadArguments(t: Tables, id: int, maxSize: int, pid: int, zapped: bool)
    requires TablesOk(t) && 0 <= id < MAXMBOX
    requires t.boxes[id].status == Empty || maxSize < 0
    ensures ReceiveSpec(t, id, maxSize, pid, zapped) == Ret(t, -1)
    ensures CondReceiveSpec(t, id, maxSize, pid, zapped) == Ret(t, -1)
  {
  }

  /** With messages queued, a receive looks only at the oldest one. If it
      does not fit the buffer the call fails with -1 and the message stays
      queued. Otherwise the call returns it and its size, frees its slot,
      leaves the remaining messages in order, and wakes at most one blocked
      sender: the longest-waiting one. No other mailbox, slot or record
      changes. */
  lemma {:induction false} ReceiveTakesOldest(t: Tables, id: int, maxSize: int, zapped: bool)
    requires TablesOk(t) && Live(t, id) && t.boxes[id].slotList != []
    ensures var st := TakeSpec(t, id, maxSize, zapped);
      var s := t.boxes[id].slotList[0];
      var m := Messages(t, id)[0];
      && (|m| > maxSize ==> st == Ret(t, -1))
      && (|m| <= maxSize ==>
            && st.out == Returned(ZapCode(zapped, |m|)) && st.data == m
            && Messages(st.t, id) == Messages(t, id)[1..]
            && st.t.boxes[id].slotsUsed == t.boxes[id].slotsUsed - 1
            && st.t.slots[s].status == Empty && st.t.slots[s].mboxID == -1
            && st.t.boxes[id].blockRecv == t.boxes[id].blockRecv
            && (t.boxes[id].blockSend == [] ==> st.woken == [] && st.t.boxes[id].blockSend == [])
            && (t.boxes[id].blockSend != [] ==>
                  st.woken == [t.boxes[id].blockSend[0]] && st.t.boxes[id].blockSend == t.boxes[id].blockSend[1..])
            && (forall j :: 0 <= j < MAXMBOX && j != id ==> st.t.boxes[j] == t.boxes[j])
            && (forall x :: 0 <= x < MAXSLOTS && x != s ==> st.t.slots[x] == t.slots[x])
            && st.t.procs == t.procs)
  {
    var list := t.boxes[id].slotList;
    var s := list[0];
    PayloadsAt(list, t.slots, 0);
    if |t.slots[s].message| <= maxSize {
      assert s !in list[1..];
      PayloadsFrame(list[1..], t.slots, s, ZeroSlot(t.slots[s]));
    }
  }

  /** With nothing queued, MboxReceive suspends: the caller is queued last
      among the blocked receivers, and no blocked sender is woken. */
  lemma ReceiveBlocksWhenEmpty(t: Tables, id: int, maxSize: int, pid: int, zapped: bool)
    requires TablesOk(t) && Live(t, id) && maxSize >= 0 && t.boxes[id].slotList == []
    ensures var st := ReceiveSpec(t, id, maxSize, pid, zapped);
      && st.out == Blocked && st.woken == []
      && st.t.boxes == t.boxes[id := t.boxes[id].(blockRecv := t.boxes[id].blockRecv + [pid])]
      && st.t.slots == t.slots
      && st.t.procs[RecordOf(pid)].msgSize == maxSize
      && st.t.procs[RecordOf(pid)].pending == Receiving(id)
  {
  }

  /** MboxCondReceive never suspends; with nothing queued it answers -2 and
      leaves every mailbox and slot as it was. */
  lemma CondReceiveWouldBlock(t: Tables, id: int, maxSize: int, pid: int, zapped: bool)
    requires TablesOk(t) && 0 <= id < MAXMBOX
    ensures CondReceiveSpec(t, id, maxSize, pid, zapped).out.Returned?
    ensures Live(t, id) && maxSize >= 0 && t.boxes[id].slotList == [] ==>
      var st := CondReceiveSpec(t, id, maxSize, pid, zapped);
      st.out == Returned(-2) && st.t.boxes == t.boxes && st.t.slots == t.slots
  {
  }

  /** A woken receiver returns -3 exactly when its mailbox was released or
      it was zapped, and otherwise the size and bytes the sender stored for
      it, which is never negative. */
  lemma ResumedReceiverResult(t: Tables, pid: int, zapped: bool)
    requires TablesOk(t) && WokenReceiver(t, pid)
    ensures var st := ResumeReceiveSpec(t, pid, zapped);
      var rec := t.procs[RecordOf(pid)];
      && (st.out == Returned(-3) <==> rec.mboxReleased || zapped)
      && (!rec.mboxReleased && !zapped ==>
            st.out == Returned(rec.msgSize) && rec.msgSize >= 0 && st.data == rec.message)
      && st.t.boxes == t.boxes && st.t.slots == t.slots && st.woken == []
  {
  }

  // --------------------------------------------------------------- release

  /** MboxRelease answers -1 and changes nothing for an id outside the table
      or a free mailbox. A mailbox nobody waits on becomes free again (its
      queued slots are not returned to the pool). Otherwise every blocked
      sender, then every blocked receiver, is marked released and woken, in
      queue order; both queues end empty and the mailbox stays in use. */
  lemma {:induction false} ReleaseEffect(t: Tables, id: int, zapped: bool)
    requires TablesOk(t)
    ensures var st := ReleaseSpec(t, id, zapped);
      && (id < 0 || id >= MAXMBOX || t.boxes[id].status == Empty ==> st == Ret(t, -1))
      && (Live(t, id) ==> st.out == Returned(ZapCode(zapped, 0)) && st.t.slots == t.slots)
      && (Live(t, id) && t.boxes[id].blockSend == [] && t.boxes[id].blockRecv == [] ==>
            st.t.boxes == t.boxes[id := ZeroMailbox()] && st.t.procs == t.procs && st.woken == [])
      && (Live(t, id) && (t.boxes[id].blockSend != [] || t.boxes[id].blockRecv != []) ==>
            && st.woken == t.boxes[id].blockSend + t.boxes[id].blockRecv
            && st.t.boxes == t.boxes[id := t.boxes[id].(blockSend := [], blockRecv := [])]
            && (forall p :: p in st.woken ==> st.t.procs[RecordOf(p)].mboxReleased)
            && (forall k :: 0 <= k < MAXPROC && (forall p :: p in st.woken ==> RecordOf(p) != k) ==>
                  st.t.procs[k] == t.procs[k]))
  {
    if Live(t, id) && (t.boxes[id].blockSend != [] || t.boxes[id].blockRecv != []) {
      var b := t.boxes[id];
      var st := ReleaseSpec(t, id, zapped);
      var mid := MarkReleased(t.procs, b.blockSend);
      forall p | p in st.woken
        ensures st.t.procs[RecordOf(p)].mboxReleased
      {
        var k := RecordOf(p);
        if p in b.blockRecv {
          MarkReleasedEffect(mid, b.blockRecv, k);
        } else {
          MarkReleasedEffect(t.procs, b.blockSend, k);
          assert mid[k].mboxReleased;
        }
      }
      forall k | 0 <= k < MAXPROC && (forall p :: p in st.woken ==> RecordOf(p) != k)
        ensures st.t.procs[k] == t.procs[k]
      {
        MarkReleasedEffect(t.procs, b.blockSend, k);
        MarkReleasedEffect(mid, b.blockRecv, k);
      }
    }
  }

  /** Every process blocked on a mailbox when it is released observes the
      teardown when it runs again: a sender's MboxSend and a receiver's
      MboxReceive both return -3, neither completes its transfer. */
  lemma {:induction false} ReleasedWaitersAbort(t: Tables, id: int, p: int, zapped: bool, zapped': bool)
    requires TablesOk(t) && Live(t, id)
    requires p in t.boxes[id].blockSend || p in t.boxes[id].blockRecv
    requires !t.procs[RecordOf(p)].pending.Idle? && t.procs[RecordOf(p)].pending.box == id
    ensures var t' := ReleaseSpec(t, id, zapped).t;
      && (t'.procs[RecordOf(p)].pending.Sending? ==>
            WokenSender(t', p) && ResumeSendSpec(t', p, zapped').out == Returned(-3))
      && (t'.procs[RecordOf(p)].pending.Receiving? ==>
            WokenReceiver(t', p) && ResumeReceiveSpec(t', p, zapped').out == Returned(-3))
  {
    ReleaseEffect(t, id, zapped);
    var st := ReleaseSpec(t, id, zapped);
    assert p in st.woken;
    assert st.t.procs[RecordOf(p)].mboxReleased;
    assert st.t.procs[RecordOf(p)].pending == t.procs[RecordOf(p)].pending;
  }

  /** Create followed by Release on a mailbox nobody waited on gives back
      the tables as they were before the create. */
  lemma {:induction false} CreateThenReleaseRestores(t: Tables, n: int, size: int, zapped: bool)
    requires TablesOk(t)
    ensures var c := CreateSpec(t, n, size);
      c.out.code >= 0 ==> ReleaseSpec(c.t, c.out.code, zapped).t == t
  {
    var c := CreateSpec(t, n, size);
    if c.out.code >= 0 {
      var i := c.out.code;
      assert t.boxes[i] == ZeroMailbox();
      assert c.t.boxes[i := ZeroMailbox()] == t.boxes;
    }
  }

  // ------------------------------------------------------------ round trips

  /** A message sent to an empty mailbox with room, and then received with a
      buffer of exactly its length, comes back byte for byte with its length. */
  lemma {:induction false} SendThenReceiveRoundTrip(t: Tables, id: int, msg: Payload, p1: int, p2: int)
    requires TablesOk(t) && Live(t, id)
    requires t.boxes[id].slotList == [] && t.boxes[id].blockRecv == [] && t.boxes[id].numSlots >= 1
    requires |msg| <= t.boxes[id].slotSize
    requires FirstWhere(t.slots, SlotIsFree) != -1
    ensures var s := SendSpec(t, id, msg, p1, false);
      var r := ReceiveSpec(s.t, id, |msg|, p2, false);
      s.out == Returned(0) && r.out == Returned(|msg|) && r.data == msg
  {
    var t1 := Register(t, p1);
    BufferedSendAppends(t1, id, msg, false);
    var s := SendSpec(t, id, msg, p1, false);
    assert Messages(t1, id) == [];
    assert Messages(s.t, id) == [msg];
    var t2 := RegisterReceiver(s.t, p2, |msg|);
    assert Messages(t2, id) == [msg];
    ReceiveTakesOldest(t2, id, |msg|, false);
  }

  /** On an idle one-slot mailbox, p1's message fills it and p2's send then
      suspends with its message pending; p1's message is the only one
      queued and nobody waits to receive. */
  lemma {:induction false} FillThenBlock(t: Tables, id: int, m1: Payload, m2: Payload, p1: int, p2: int)
    requires TablesOk(t) && Live(t, id)
    requires t.boxes[id].numSlots == 1 && t.boxes[id].slotList == []
    requires t.boxes[id].blockSend == [] && t.boxes[id].blockRecv == []
    requires |m1| <= t.boxes[id].slotSize && |m2| <= t.boxes[id].slotSize
    requires FirstWhere(t.slots, SlotIsFree) != -1
    ensures var s1 := SendSpec(t, id, m1, p1, false);
      var s2 := SendSpec(s1.t, id, m2, p2, false);
      && s1.out == Returned(0) && s2.out == Blocked
      && Live(s2.t, id) && s2.t.boxes[id].numSlots == 1
      && Messages(s2.t, id) == [m1]
      && s2.t.boxes[id].blockSend == [p2] && s2.t.boxes[id].blockRecv == []
      && s2.t.procs[RecordOf(p2)].pending == Sending(id, m2)
      && !s2.t.procs[RecordOf(p2)].mboxReleased
  {
    var s1 := SendSpec(t, id, m1, p1, false);
    var t1 := Register(t, p1);
    BufferedSendAppends(t1, id, m1, false);
    assert Messages(t1, id) == [];
    assert Messages(s1.t, id) == [m1];
    var s2 := SendSpec(s1.t, id, m2, p2, false);
    assert s2.out == Blocked;
    assert s2.t.slots == s1.t.slots && s2.t.boxes[id].slotList == s1.t.boxes[id].slotList;
  }

  /** Receiving the only queued message of a mailbox with one blocked sender
      returns that message, empties the mailbox, wakes the sender (whose
      call is still pending) and leaves a free slot in the pool. */
  lemma {:induction false} ReceiveWakesSender(
    t: Tables, id: int, m1: Payload, m2: Payload, maxSize: int, p2: int, p3: int)
    requires TablesOk(t) && Live(t, id) && Messages(t, id) == [m1] && |m1| <= maxSize
    requires t.boxes[id].blockSend == [p2] && t.boxes[id].blockRecv == []
    requires t.procs[RecordOf(p2)].pending == Sending(id, m2) && !t.procs[RecordOf(p2)].mboxReleased
    requires RecordOf(p2) != RecordOf(p3)
    ensures var r := ReceiveSpec(t, id, maxSize, p3, false);
      && r.out == Returned(|m1|) && r.data == m1 && r.woken == [p2]
      && Live(r.t, id) && r.t.boxes[id].numSlots == t.boxes[id].numSlots
      && r.t.boxes[id].slotList == [] && r.t.boxes[id].blockSend == [] && r.t.boxes[id].blockRecv == []
      && r.t.procs[RecordOf(p2)] == t.procs[RecordOf(p2)]
      && WokenSender(r.t, p2)
      && FirstWhere(r.t.slots, SlotIsFree) != -1
  {
    var t2 := RegisterReceiver(t, p3, maxSize);
    assert Messages(t2, id) == [m1];
    var slot := t2.boxes[id].slotList[0];
    ReceiveTakesOldest(t2, id, maxSize, false);
    var r := ReceiveSpec(t, id, maxSize, p3, false);
    assert SlotIsFree(r.t.slots[slot]);
  }

  /** The second half of back-pressure: once the receive has emptied the
      mailbox and woken the blocked sender, the resumed sender queues its
      message in a free slot, and it is then the only message queued. */
  lemma {:induction false} WokenSenderRefills(t: Tables, id: int, m2: Payload, p2: int)
    requires TablesOk(t) && Live(t, id) && t.boxes[id].numSlots == 1
    requires t.boxes[id].slotList == [] && t.boxes[id].blockRecv == []
    requires WokenSender(t, p2)
    requires t.procs[RecordOf(p2)].pending == Sending(id, m2) && !t.procs[RecordOf(p2)].mboxReleased
    requires FirstWhere(t.slots, SlotIsFree) != -1
    ensures ResumeSendSpec(t, p2, false).out == Returned(0)
    ensures Messages(ResumeSendSpec(t, p2, false).t, id) == [m2]
  {
    var k := RecordOf(p2);
    var u := t.(procs := t.procs[k := t.procs[k].(pending := Idle)]);
    assert Messages(u, id) == [];
    BufferedSendAppends(u, id, m2, false);
  }

  /** Back-pressure on a one-slot mailbox: p1's message fills it, p2's send
      suspends, p3's receive returns p1's message and wakes p2, and p2, once
      resumed, queues its own message in the slot the receive freed; the
      mailbox then holds exactly p2's message. */
  lemma {:induction false} FreedSlotGoesToWaitingSender(
    t: Tables, id: int, m1: Payload, m2: Payload, maxSize: int, p1: int, p2: int, p3: int)
    requires TablesOk(t) && Live(t, id)
    requires t.boxes[id].numSlots == 1 && t.boxes[id].slotList == []
    requires t.boxes[id].blockSend == [] && t.boxes[id].blockRecv == []
    requires |m1| <= t.boxes[id].slotSize && |m2| <= t.boxes[id].slotSize && |m1| <= maxSize
    requires FirstWhere(t.slots, SlotIsFree) != -1
    requires RecordOf(p2) != RecordOf(p3)
    ensures var s1 := SendSpec(t, id, m1, p1, false);
      var s2 := SendSpec(s1.t, id, m2, p2, false);
      var r3 := ReceiveSpec(s2.t, id, maxSize, p3, false);
      && s1.out == Returned(0) && s2.out == Blocked
      && r3.out == Returned(|m1|) && r3.data == m1 && r3.woken == [p2]
      && WokenSender(r3.t, p2)
      && ResumeSendSpec(r3.t, p2, false).out == Returned(0)
      && Messages(ResumeSendSpec(r3.t, p2, false).t, id) == [m2]
  {
    FillThenBlock(t, id, m1, m2, p1, p2);
    var s2 := SendSpec(SendSpec(t, id, m1, p1, false).t, id, m2, p2, false);
    ReceiveWakesSender(s2.t, id, m1, m2, maxSize, p2, p3);
    WokenSenderRefills(ReceiveSpec(s2.t, id, maxSize, p3, false).t, id, m2, p2);
  }

  /** On a zero-capacity mailbox a sender that comes first is never met: it
      blocks, and the receiver that comes next finds nothing queued and
      blocks as well, waking nobody; both stay queued. */
  lemma {:induction false} SenderFirstRendezvousBlocksBoth(
    t: Tables, id: int, msg: Payload, maxSize: int, ps: int, pr: int)
    requires TablesOk(t) && Live(t, id) && t.boxes[id].numSlots == 0
    requires t.boxes[id].blockRecv == [] && t.boxes[id].slotList == []
    requires |msg| <= t.boxes[id].slotSize && maxSize >= 0
    ensures var s := SendSpec(t, id, msg, ps, false);
      var r := ReceiveSpec(s.t, id, maxSize, pr, false);
      && s.out == Blocked && r.out == Blocked && s.woken == [] && r.woken == []
      && r.t.boxes[id].blockSend == t.boxes[id].blockSend + [ps]
      && r.t.boxes[id].blockRecv == [pr]
      && r.t.slots == t.slots
  {
    var s := SendSpec(t, id, msg, ps, false);
    SendBlocksExactlyWhenFull(t, id, msg, ps, false);
    assert s.t.boxes[id] == t.boxes[id].(blockSend := t.boxes[id].blockSend + [ps]);
    ReceiveBlocksWhenEmpty(s.t, id, maxSize, pr, false);
  }

  /** Rendezvous: on a mailbox with no message queued and no receiver
      waiting (for instance one with no capacity), a receiver that blocks
      first and a sender that comes second complete together; the receiver,
      once resumed, gets exactly the sender's bytes and length, whatever
      released flag its record carried before. */
  lemma {:induction false} Rendezvous(t: Tables, id: int, msg: Payload, maxSize: int, pr: int, ps: int)
    requires TablesOk(t) && Live(t, id)
    requires t.boxes[id].slotList == [] && t.boxes[id].blockRecv == []
    requires |msg| <= t.boxes[id].slotSize && |msg| <= maxSize
    requires RecordOf(pr) != RecordOf(ps)
    ensures var r := ReceiveSpec(t, id, maxSize, pr, false);
      var s := SendSpec(r.t, id, msg, ps, false);
      && r.out == Blocked
      && s.out == Returned(0) && s.woken == [pr]
      && WokenReceiver(s.t, pr)
      && ResumeReceiveSpec(s.t, pr, false).out == Returned(|msg|)
      && ResumeReceiveSpec(s.t, pr, false).data == msg
  {
    var r := ReceiveSpec(t, id, maxSize, pr, false);
    assert r.t.boxes[id].blockRecv == [pr];
    var t1 := Register(r.t, ps);
    assert t1.procs[RecordOf(pr)] == r.t.procs[RecordOf(pr)];
    HandoffToHeadReceiver(t1, id, msg, false);
  }
}
