/** The three tables of the mailbox layer (phase2/phase2.c): the mailbox
    table, the global slot pool and the per-process request table, with the
    invariant every mailbox operation keeps. The intrusive linked lists of
    the source (slotList, blockSendList, blockRecvList) are sequences here:
    slot indices for queued messages, process ids for blocked processes. */
module MailboxState {
  import opened Limits

  /** A message payload: the bytes memcpy'd between buffers. */
  type Payload = seq<bv8>

  /** EMPTY / USED of a mailbox or a slot. */
  datatype Status = Empty | Used

  /** One entry of MailBoxTable. */
  datatype MailBox = MailBox(
    status: Status,
    numSlots: int,          // capacity; 0 is a pure rendezvous mailbox
    slotsUsed: int,         // number of queued messages
    slotSize: int,          // largest message accepted
    slotList: seq<int>,     // queued messages, oldest first, as SlotTable indices
    blockSend: seq<int>,    // pids of blocked senders, longest-waiting first
    blockRecv: seq<int>)    // pids of blocked receivers, longest-waiting first

  /** One entry of SlotTable; msgSize of the source is |message|. */
  datatype Slot = Slot(status: Status, mboxID: int, message: Payload)

  /** EMPTY / ACTIVE of a request record. */
  datatype ProcStatus = NoProc | Active

  /** The suspended call a blocked process will finish when it runs again:
      the local state (mailbox pointer, outgoing message) of its MboxSend or
      MboxReceive frame, which the source keeps on that process's stack. */
  datatype Pending = Idle | Sending(box: int, outgoing: Payload) | Receiving(box: int)

  /** One entry of MboxProcTable. For a receiver, `message` is the contents
      of its buffer and `msgSize` first its capacity, then the length of the
      message a sender copied into it. */
  datatype ProcRecord = ProcRecord(
    pid: int,
    status: ProcStatus,
    message: Payload,
    msgSize: int,
    mboxReleased: bool,
    pending: Pending)

  /** The whole state of the mailbox layer, as values. */
  datatype Tables = Tables(boxes: seq<MailBox>, slots: seq<Slot>, procs: seq<ProcRecord>)

  /** zeroMailbox: the state of a free mailbox entry. */
  function ZeroMailbox(): MailBox {
    MailBox(Empty, -1, -1, -1, [], [], [])
  }

  /** zeroSlot: frees a slot; its bytes stay where they were. */
  function ZeroSlot(s: Slot): Slot {
    s.(status := Empty, mboxID := -1)
  }

  /** A slot as start1 leaves it. */
  function InitialSlot(): Slot {
    Slot(Empty, -1, [])
  }

  /** zeroMboxProc: the state of an unused request record. */
  function ZeroMboxProc(): ProcRecord {
    ProcRecord(-1, NoProc, [], -1, false, Idle)
  }

  predicate BoxIsFree(b: MailBox) { b.status == Empty }
  predicate SlotIsFree(s: Slot) { s.status == Empty }

  /** `isZapped() ? -3 : code`, the way every successful operation returns. */
  function ZapCode(zapped: bool, code: int): int {
    if zapped then -3 else code
  }

  predicate WellFormed(t: Tables) {
    |t.boxes| == MAXMBOX && |t.slots| == MAXSLOTS && |t.procs| == MAXPROC
  }

  /** A free entry is exactly what zeroMailbox leaves; an entry in use has a
      legal capacity and size limit and counts its queued messages; and a
      mailbox never has both queued messages and waiting receivers (a
      receiver waits only when nothing is queued, a message is queued only
      when no receiver waits). */
  predicate BoxOk(b: MailBox) {
    && (b.status == Empty ==> b == ZeroMailbox())
    && (b.slotList == [] || b.blockRecv == [])
    && (b.status == Used ==>
          b.numSlots >= 0 && 0 <= b.slotSize <= MAX_MESSAGE && b.slotsUsed == |b.slotList|)
  }

  /** Every slot queued on mailbox `owner` is in the pool, in use, owned by
      that mailbox, and queued only once. */
  predicate QueuedSlotsOk(list: seq<int>, owner: int, slots: seq<Slot>) {
    && (forall k :: 0 <= k < |list| ==>
          0 <= list[k] < |slots| && slots[list[k]].status == Used && slots[list[k]].mboxID == owner)
    && (forall k1, k2 :: 0 <= k1 < k2 < |list| ==> list[k1] != list[k2])
  }

  /** A suspended call names a mailbox of the table; a suspended receiver's
      size field (its buffer capacity, then the delivered length) is never
      negative. */
  predicate PendingOk(r: ProcRecord) {
    match r.pending
    case Idle => true
    case Sending(b, _) => 0 <= b < MAXMBOX
    case Receiving(b) => 0 <= b < MAXMBOX && r.msgSize >= 0
  }

  /** The invariant of the mailbox layer. */
  predicate TablesOk(t: Tables) {
    && WellFormed(t)
    && (forall i :: 0 <= i < |t.boxes| ==> BoxOk(t.boxes[i]) && QueuedSlotsOk(t.boxes[i].slotList, i, t.slots))
    && (forall k :: 0 <= k < |t.procs| ==> PendingOk(t.procs[k]))
  }

  /** The payloads of a list of slots, in list order. */
  function Payloads(list: seq<int>, slots: seq<Slot>): (ms: seq<Payload>)
    requires forall k :: 0 <= k < |list| ==> 0 <= list[k] < |slots|
    ensures |ms| == |list|
  {
    if list == [] then [] else [slots[list[0]].message] + Payloads(list[1..], slots)
  }

  /** The messages queued on mailbox `id`, oldest first. */
  function Messages(t: Tables, id: int): seq<Payload>
    requires TablesOk(t) && 0 <= id < MAXMBOX
  {
    Payloads(t.boxes[id].slotList, t.slots)
  }

  /** Element k of Payloads is the payload of the k-th slot of the list. */
  lemma {:induction false} PayloadsAt(list: seq<int>, slots: seq<Slot>, k: int)
    requires forall j :: 0 <= j < |list| ==> 0 <= list[j] < |slots|
    requires 0 <= k < |list|
    ensures Payloads(list, slots)[k] == slots[list[k]].message
  {
    if k > 0 {
      PayloadsAt(list[1..], slots, k - 1);
    }
  }

  /** Appending a slot to a list appends its payload. */
  lemma {:induction false} PayloadsAppend(list: seq<int>, s: int, slots: seq<Slot>)
    requires forall j :: 0 <= j < |list| ==> 0 <= list[j] < |slots|
    requires 0 <= s < |slots|
    ensures Payloads(list + [s], slots) == Payloads(list, slots) + [slots[s].message]
  {
    if list != [] {
      assert (list + [s])[1..] == list[1..] + [s];
      PayloadsAppend(list[1..], s, slots);
    }
  }

  /** Changing a slot that is not on the list does not change the list's payloads. */
  lemma {:induction false} PayloadsFrame(list: seq<int>, slots: seq<Slot>, s: int, x: Slot)
    requires forall j :: 0 <= j < |list| ==> 0 <= list[j] < |slots|
    requires 0 <= s < |slots| && s !in list
    ensures Payloads(list, slots[s := x]) == Payloads(list, slots)
  {
    if list != [] {
      PayloadsFrame(list[1..], slots, s, x);
    }
  }

  /** Sets mboxReleased on the record of one process. */
  function MarkOne(ps: seq<ProcRecord>, pid: int): (r: seq<ProcRecord>)
    requires |ps| == MAXPROC
    ensures |r| == MAXPROC
  {
    ps[RecordOf(pid) := ps[RecordOf(pid)].(mboxReleased := true)]
  }

  /** Sets mboxReleased on the records of `pids`, first to last, as the drain
      loops of MboxRelease do. */
  function MarkReleased(ps: seq<ProcRecord>, pids: seq<int>): (r: seq<ProcRecord>)
    requires |ps| == MAXPROC
    ensures |r| == MAXPROC
    ensures forall k :: 0 <= k < MAXPROC ==> r[k] == ps[k].(mboxReleased := r[k].mboxReleased)
    ensures forall k :: 0 <= k < MAXPROC && ps[k].mboxReleased ==> r[k].mboxReleased
  {
    if pids == [] then ps else MarkOne(MarkReleased(ps, pids[..|pids| - 1]), pids[|pids| - 1])
  }

  /** After the drain every listed process is marked released, and a record
      that belongs to none of them keeps its old contents. */
  lemma {:induction false} MarkReleasedEffect(ps: seq<ProcRecord>, pids: seq<int>, k: int)
    requires |ps| == MAXPROC && 0 <= k < MAXPROC
    ensures (exists p :: p in pids && RecordOf(p) == k) ==> MarkReleased(ps, pids)[k].mboxReleased
    ensures (forall p :: p in pids ==> RecordOf(p) != k) ==> MarkReleased(ps, pids)[k] == ps[k]
  {
    if pids != [] {
      var init := pids[..|pids| - 1];
      var last := pids[|pids| - 1];
      MarkReleasedEffect(ps, init, k);
      if exists p :: p in pids && RecordOf(p) == k {
        var p :| p in pids && RecordOf(p) == k;
        if p != last {
          assert p in init by {
            var j :| 0 <= j < |pids| && pids[j] == p;
            assert j < |pids| - 1;
            assert init[j] == p;
          }
        }
      }
      if forall p :: p in pids ==> RecordOf(p) != k {
        assert forall p :: p in init ==> p in pids;
      }
    }
  }

  /** The state start1 builds before it creates the device mailboxes. */
  function InitialTables(): (t: Tables)
    ensures TablesOk(t)
  {
    Tables(seq(MAXMBOX, _ => ZeroMailbox()), seq(MAXSLOTS, _ => InitialSlot()), seq(MAXPROC, _ => ZeroMboxProc()))
  }
}
