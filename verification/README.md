# Mailboxes and semaphores of a USLOSS teaching kernel, in Dafny

This project models two layers of a small kernel that runs on the USLOSS
machine simulator:

* the **mailbox engine** of phase 2 (`phase2/phase2.c`): a fixed table of
  mailboxes, a global pool of message slots shared by all mailboxes, and a
  per-process request table; blocking and conditional send and receive,
  release of a mailbox with processes waiting on it, the seven mailboxes
  reserved for device interrupts, `waitDevice`, `check_io` and the clock,
  disk and terminal interrupt handlers;
* the **semaphore table, child lists and spawn argument checks** of phase 3
  (`phase3/phase3.c`): `semCreate`, `semP`, `semV`, `semFree`, the blocked
  list of a semaphore, `addChildToList`, `removeFromChildList` and the
  argument validation of `spawn`.

Each layer is written twice. The first version is a set of pure
functions from the tables before a call to the tables after it:
`MailboxSpec` and `Phase3Spec`, with the value types in `MailboxState` and
`Phase3State`. What the source promises is proved about these functions
in `MailboxProperties`, `Phase3Properties` and `Devices`. The second
version is a class over arrays that are updated in place, as the C code
updates its global tables: `MailboxEngine.MailSystem` and
`Phase3Kernel.Kernel`. Every method of these classes is proved to leave
exactly the state, and return exactly the result, that the corresponding
function describes. So every property proved about the functions also
holds for the imperative code.

How the model represents the C program:

* **Intrusive linked lists become sequences.** The slot list, the
  blocked-sender and blocked-receiver lists, a semaphore's blocked list and
  a process's child list are sequences, oldest or first first. The C tail
  walks become sequence append.
* **A call that blocks is two events.** The call queues the caller and
  answers `Blocked` (`Suspended` in phase 3). A later *resume* event runs
  the rest of the call once another operation has dequeued and woken the
  caller. `woken` lists the processes an event passes to `unblockProc`,
  in order. In phase 3, `signals` lists the private mailboxes a semaphore
  operation sends to.
* **Values from outside are parameters.** `getpid()`, `isZapped()`, the
  device status word and the mailbox id returned by `MboxCreate(1, 0)`
  inside `semCreate` are all passed in.
* **`USLOSS_Halt(1)` is an outcome.** It becomes `Halted`, or `halted`
  in the handlers.

Behaviour of the code that the model keeps, although it may be unexpected:

* **MboxCondSend on a zero-capacity mailbox.** With no receiver waiting,
  the call answers -1 rather than the "would block" code -2
  (`phase2/phase2.c:403-406`). The model does the same
  (`MailboxProperties.CondSendWouldBlock`).
* **A woken sender.** A receive does not take the message of the sender it
  wakes; the sender does the transfer itself when it resumes
  (`phase2/phase2.c:204-257`). So on a zero-capacity mailbox only the
  receiver-first order completes. If the sender comes first, the
  receiver that follows blocks as well
  (`MailboxProperties.SenderFirstRendezvousBlocksBoth`).
* **MboxRelease with processes waiting.** The mailbox stays in use after
  its waiters are woken (`phase2/phase2.c:355-372`). The model does the
  same (`MailboxProperties.ReleaseEffect`).

Corrections the model makes. `MailboxSpec`, `MailboxEngine`, `Phase3Spec`
and `Phase3Kernel` describe the program with the four corrections listed
under Findings, so every property proved about them is about the corrected
program. The code as written is modelled beside each correction, in
`Findings`:

* `MailboxSpec.SendSpec` and `MailboxSpec.CondSendSpec` refuse
  `id >= MAXMBOX`. The code refuses only `id > MAXMBOX`
  (`phase2/phase2.c:176`, `381`).
* `Phase3Spec.SemIndexOk` refuses `semIndex >= MAXSEMS` in semP, semV and
  semFree. The code refuses only `semIndex > MAXSEMS`
  (`phase3/phase3.c:303`, `335`, `365`).
* `MailboxSpec.Register`, and so `MailboxEngine.MailSystem.ClaimRecord`,
  clears the released flag when a send or receive claims the caller's
  record. The code never clears it after start-up
  (`phase2/phase2.c:189-191`).
* `MailboxSpec.ResumeSendSpec` answers -3 when the mailbox was freed while
  the sender waited. The code queues the message on the free entry
  (`phase2/phase2.c:204-257`).

## Model

| member | source | states |
|---|---|---|
| Scan.FirstWhere | phase2/phase2.c:148-157 | the lowest index whose entry is free, or -1 exactly when no entry is free (the first-fit scans of MboxCreate, of the slot search and of semCreate) |
| Limits.RecordOf | phase2/phase2.c:189-191 | a process's request record, and its phase 3 process-table entry (`phase3/phase3.c:317-319`), is `pid % MAXPROC`, always an index of the table |
| MailboxState.InitialTables | phase2/phase2.c:77-96 | the tables after the zeroMailbox, zeroSlot and zeroMboxProc loops satisfy the table invariant |
| MailboxState.MarkReleased | phase2/phase2.c:356-369 | the drain loops of MboxRelease change only the released flag of each record and never clear a flag already set |
| MailboxState.MarkReleasedEffect | phase2/phase2.c:356-369 | after the drain, the record of every drained process is marked released and every other record is unchanged |
| MailboxSpec.Register | phase2/phase2.c:188-191 | claiming the caller's request record keeps the table invariant; corrected: the claim also clears the released flag (the as-written claim is Findings.RegisterAsWritten) |
| MailboxSpec.RegisterReceiver | phase2/phase2.c:289-294 | a receiver claiming its record with a non-negative buffer capacity keeps the table invariant |
| MailboxSpec.CreateSpec | phase2/phase2.c:134-160 | MboxCreate keeps the table invariant |
| MailboxSpec.DeliverSpec | phase2/phase2.c:211-260 | hand-off to a waiting receiver, or queuing in a free slot, keeps the table invariant |
| MailboxSpec.SendSpec | phase2/phase2.c:171-209 | MboxSend up to blocking keeps the table invariant |
| MailboxSpec.ResumeSendSpec | phase2/phase2.c:204-260 | a woken sender's completion keeps the table invariant, the empty-mailbox test included (see Findings) |
| MailboxSpec.CondSendSpec | phase2/phase2.c:376-457 | MboxCondSend keeps the table invariant |
| MailboxSpec.TakeSpec | phase2/phase2.c:315-334 | taking the oldest message keeps the table invariant |
| MailboxSpec.ReceiveSpec | phase2/phase2.c:273-307 | MboxReceive up to blocking keeps the table invariant |
| MailboxSpec.ResumeReceiveSpec | phase2/phase2.c:308-314 | a woken receiver's completion keeps the table invariant |
| MailboxSpec.CondReceiveSpec | phase2/phase2.c:459-507 | MboxCondReceive keeps the table invariant |
| MailboxSpec.ReleaseSpec | phase2/phase2.c:337-373 | MboxRelease keeps the table invariant |
| MailboxProperties.CreateFirstFit | phase2/phase2.c:134-160 | bad capacity or size answers -1 and changes nothing; otherwise the lowest free entry becomes an empty in-use mailbox with the requested capacity and size; -1 exactly when no entry is free |
| MailboxProperties.CreateDeviceBoxes | phase2/phase2.c:83-86 | creating the device mailboxes keeps the table invariant |
| MailboxProperties.StartupTables | phase2/phase2.c:77-96 | the tables start1 leaves satisfy the table invariant |
| MailboxProperties.DeviceBoxesCreated | phase2/phase2.c:83-86 | after n creations on fresh tables, entries 0..n-1 are zero-capacity device mailboxes, all others are free, and the slots and records are untouched |
| MailboxProperties.DeviceBoxStep | phase2/phase2.c:83-86 | one more MboxCreate(0, 0) after n - 1 device mailboxes makes entry n - 1 a device mailbox and changes nothing else |
| MailboxProperties.CreateDeviceBoxAt | phase2/phase2.c:148-156 | MboxCreate(0, 0) turns exactly the lowest free entry into a device mailbox |
| MailboxProperties.NextCreateAfterDevices | phase2/phase2.c:148-156 | after d creations on fresh tables, the next valid creation gets id d |
| MailboxProperties.FirstUserMailboxIsSeven | phase2/phase2.c:83-86 | the first mailbox created after start1 gets id 7 |
| MailboxProperties.StartupDeviceBoxesUsed | phase2/phase2.c:83-86 | after start1, mailboxes 0..6 are in use |
| MailboxProperties.CreateAvoidsDeviceIds | phase2/phase2.c:148-159 | while mailboxes 0..6 are in use, MboxCreate answers -1 or an id from 7 up |
| MailboxProperties.KeepsUsedKeepsDevices | phase2/phase2.c:148-159 | a step that keeps every used mailbox in use keeps mailboxes 0..6 in use |
| MailboxProperties.CreateKeepsUsed | phase2/phase2.c:134-160 | MboxCreate frees no mailbox |
| MailboxProperties.TailsKeepUsed | phase2/phase2.c:211-260 | the hand-off or enqueue of a send, and the take of a receive (lines 315-334), free no mailbox |
| MailboxProperties.SendKeepsUsed | phase2/phase2.c:171-260 | MboxSend frees no mailbox |
| MailboxProperties.CondSendKeepsUsed | phase2/phase2.c:376-457 | MboxCondSend frees no mailbox |
| MailboxProperties.ReceiveKeepsUsed | phase2/phase2.c:273-334 | MboxReceive and MboxCondReceive (lines 459-507) free no mailbox |
| MailboxProperties.ResumeKeepsUsed | phase2/phase2.c:204-260 | the rest of a suspended MboxSend or MboxReceive (lines 308-314) frees no mailbox |
| MailboxProperties.ReleaseKeepsOtherMailboxes | phase2/phase2.c:337-373 | MboxRelease frees at most the mailbox it names, so releasing one other than 0..6 keeps them in use |
| MailboxProperties.SendRejectsBadArguments | phase2/phase2.c:175-186 | an id outside the table, a message over the size limit, or a free mailbox makes MboxSend and MboxCondSend answer -1 with no change (the CondSend size check only for nonzero capacity, line 388); sizes are never negative here (see Left out) |
| MailboxProperties.SendBlocksExactlyWhenFull | phase2/phase2.c:193-204 | MboxSend blocks if and only if the mailbox is full and no receiver waits; the blocked caller is queued last, its record is claimed with the message pending, and no other mailbox, slot or record changes |
| MailboxProperties.HandoffToHeadReceiver | phase2/phase2.c:211-224 | with a receiver waiting, the message goes only to the longest-waiting receiver (-1 if its buffer is too small), which is dequeued and woken; slots and other records untouched |
| MailboxProperties.BufferedSendAppends | phase2/phase2.c:226-260 | with no receiver waiting, the message is queued after all queued messages, the count grows by one, and other mailboxes' messages are unchanged |
| MailboxProperties.PoolExhausted | phase2/phase2.c:235-238 | an exhausted slot pool halts MboxSend and makes MboxCondSend answer -2 (lines 432-434), neither changing any mailbox or slot |
| MailboxProperties.CondSendNeverBlocks | phase2/phase2.c:376-457 | MboxCondSend always returns a code, never queues a sender and at most dequeues the receiver it hands off to |
| MailboxProperties.CondSendWouldBlock | phase2/phase2.c:398-406 | a full mailbox with capacity answers -2, a zero-capacity mailbox with no receiver answers -1, both with no change to mailboxes or slots |
| MailboxProperties.ReceiveRejectsBadArguments | phase2/phase2.c:277-287 | a free mailbox or a negative buffer size makes MboxReceive and MboxCondReceive answer -1 with no change |
| MailboxProperties.ReceiveTakesOldest | phase2/phase2.c:315-334 | receive returns the oldest message and its size, keeps the rest in order, frees the slot, and wakes only the longest-waiting sender; a message larger than the buffer answers -1 and stays queued; no other mailbox, slot or record changes |
| MailboxProperties.ReceiveBlocksWhenEmpty | phase2/phase2.c:296-308 | with nothing queued, MboxReceive queues the caller last among blocked receivers, records its buffer size and wakes no one |
| MailboxProperties.CondReceiveWouldBlock | phase2/phase2.c:482-486 | MboxCondReceive never suspends; with nothing queued it answers -2 and changes no mailbox or slot |
| MailboxProperties.ResumedReceiverResult | phase2/phase2.c:308-314 | a woken receiver answers -3 exactly when released or zapped, otherwise the non-negative size and the bytes the sender stored for it |
| MailboxProperties.ReleaseEffect | phase2/phase2.c:337-373 | bad id or free mailbox: -1, no change; no waiters: the entry is freed; otherwise every blocked sender then receiver is marked released and woken in order, both queues empty, the mailbox stays in use |
| MailboxProperties.ReleasedWaitersAbort | phase2/phase2.c:205-208 | every process blocked on a released mailbox gets -3 from its MboxSend or MboxReceive (also lines 309-311) |
| MailboxProperties.CreateThenReleaseRestores | phase2/phase2.c:351-354 | MboxCreate followed by MboxRelease of the new mailbox gives back the original tables |
| MailboxProperties.SendThenReceiveRoundTrip | phase2/phase2.c:240-257 | a message sent to an empty mailbox with room and then received comes back byte for byte with its length (receive at lines 315-333) |
| MailboxProperties.FreedSlotGoesToWaitingSender | phase2/phase2.c:326-331 | on a one-slot mailbox, a receive wakes the blocked sender, and the woken sender's message then occupies the freed slot alone (sender side at lines 204-257) |
| MailboxProperties.FillThenBlock | phase2/phase2.c:193-204 | on an idle one-slot mailbox, the first send is queued and returns 0, the second blocks, queued as the only blocked sender with its message pending |
| MailboxProperties.ReceiveWakesSender | phase2/phase2.c:315-331 | a receive on a full one-slot mailbox with one blocked sender returns the queued message, frees its slot, dequeues and wakes that sender and leaves its pending message untouched |
| MailboxProperties.WokenSenderRefills | phase2/phase2.c:211-260 | the woken sender, once resumed, returns 0 and its message is then the mailbox's only queued message |
| MailboxProperties.SenderFirstRendezvousBlocksBoth | phase2/phase2.c:193-204 | on a zero-capacity mailbox a sender that comes first blocks, and the receiver that follows blocks too, waking nobody (receiver side at lines 296-308) |
| MailboxProperties.Rendezvous | phase2/phase2.c:298-314 | a receiver that blocks first and a sender that comes second complete together, and the receiver gets exactly the sent bytes and length (sender side at lines 211-223) |
| Devices.WaitMailbox | phase2/phase2.c:509-537 | waitDevice receives on one of the seven reserved mailboxes |
| Devices.HandlersSendWhereWaitersReceive | phase2/phase2.c:623-653 | each disk and terminal handler sends on the mailbox that waitDevice for the same unit receives on (clock: line 615) |
| Devices.DeviceMailboxesDistinct | phase2/phase2.c:515-517 | no two devices share a mailbox |
| Devices.WaitResult | phase2/phase2.c:538-539 | waitDevice returns -1 exactly when the receive returned -3, and 0 otherwise |
| Devices.NextClockCount | phase2/phase2.c:611-616 | the tick counter stays in 0..4 and returns to 0 exactly on a tick that forwards the status |
| Devices.ClockCountIsTicksModFive | phase2/phase2.c:611-616 | after n ticks the counter is n mod 5, so the status is forwarded on every fifth tick and only then |
| MailboxEngine.MailSystem.constructor | phase2/phase2.c:64-96 | the arrays hold exactly the tables start1 builds, with the seven device mailboxes, and the clock counter is 0 |
| MailboxEngine.ClearedMailboxes | phase2/phase2.c:77-81 | a fresh array holding a zeroed entry for every mailbox id |
| MailboxEngine.ClearedSlots | phase2/phase2.c:88-92 | a fresh array holding a zeroed entry for every slot |
| MailboxEngine.ClearedRecords | phase2/phase2.c:93-96 | a fresh array holding a zeroed request record per process slot |
| MailboxEngine.MailSystem.CreateDeviceMailboxes | phase2/phase2.c:83-86 | the seven MboxCreate(0, 0) calls turn the zeroed tables into the start-up tables |
| MailboxEngine.FindFreeBox | phase2/phase2.c:148-157 | the loop of MboxCreate stops at the lowest EMPTY entry, or reports -1 when there is none |
| MailboxEngine.FindFreeSlot | phase2/phase2.c:226-238 | the slot loop of MboxSend stops at the lowest EMPTY slot, or reports -1 when the pool is used up |
| MailboxEngine.MailSystem.Create | phase2/phase2.c:134-160 | the in-place MboxCreate leaves the state CreateSpec describes and returns its code |
| MailboxEngine.MailSystem.ClaimRecord | phase2/phase2.c:188-191 | claiming a record in place is Register, the corrected claim that also clears the released flag |
| MailboxEngine.MailSystem.Deliver | phase2/phase2.c:211-260 | the in-place hand-off or slot search and enqueue is DeliverSpec |
| MailboxEngine.MailSystem.HandToReceiver | phase2/phase2.c:211-224 | the in-place hand-off to the head receiver is DeliverSpec for a mailbox with a receiver waiting |
| MailboxEngine.MailSystem.QueueInSlot | phase2/phase2.c:226-260 | the in-place slot search and enqueue is DeliverSpec for a mailbox with no receiver waiting |
| MailboxEngine.MailSystem.Send | phase2/phase2.c:171-209 | the in-place MboxSend is SendSpec |
| MailboxEngine.MailSystem.ResumeSend | phase2/phase2.c:204-260 | the in-place resume of a sender is ResumeSendSpec |
| MailboxEngine.MailSystem.CondSend | phase2/phase2.c:376-457 | the in-place MboxCondSend is CondSendSpec |
| MailboxEngine.MailSystem.Take | phase2/phase2.c:315-334 | the in-place removal of the oldest message is TakeSpec |
| MailboxEngine.MailSystem.Receive | phase2/phase2.c:273-307 | the in-place MboxReceive is ReceiveSpec |
| MailboxEngine.MailSystem.ResumeReceive | phase2/phase2.c:308-314 | the in-place resume of a receiver is ResumeReceiveSpec |
| MailboxEngine.MailSystem.CondReceive | phase2/phase2.c:459-507 | the in-place MboxCondReceive is CondReceiveSpec |
| MailboxEngine.MailSystem.DrainSenders | phase2/phase2.c:356-362 | the loop empties the blocked-sender list, returns it in order and marks each record released |
| MailboxEngine.MailSystem.DrainReceivers | phase2/phase2.c:363-369 | the loop empties the blocked-receiver list, returns it in order and marks each record released |
| MailboxEngine.MailSystem.Release | phase2/phase2.c:337-373 | the in-place MboxRelease is ReleaseSpec |
| MailboxEngine.MailSystem.CheckIo | phase2/phase2.c:561-568 | returns 1 exactly when a process waits on one of the seven device mailboxes, else 0 |
| MailboxEngine.MailSystem.WaitDevice | phase2/phase2.c:509-540 | waitDevice receives on the device's mailbox with an int-sized buffer and maps the code through WaitResult |
| MailboxEngine.MailSystem.ResumeWaitDevice | phase2/phase2.c:538-539 | a resumed waitDevice answers WaitResult of the resumed receive |
| MailboxEngine.MailSystem.ClockHandler | phase2/phase2.c:603-621 | a device other than the clock or a unit other than 0 halts with no change; otherwise the counter advances, and on every fifth tick the int-sized status is sent conditionally on mailbox 0 |
| MailboxEngine.MailSystem.DeviceHandler | phase2/phase2.c:623-653 | an invalid unit halts with no change; otherwise the int-sized status is sent conditionally on mailbox unit + 1 (disk) or unit + 3 (terminal) |
| Phase3State.InitialKernel3 | phase3/phase3.c:45-53 | start2 leaves every entry of both tables empty, which satisfies the table invariant |
| Phase3State.Without | phase3/phase3.c:439-452 | unlinking removes exactly one occurrence: one element shorter when present, unchanged when absent |
| Phase3State.WithoutMultiset | phase3/phase3.c:439-452 | unlinking takes away one copy of the process and nothing else: the multiset of the list less that element |
| Phase3State.WithoutAt | phase3/phase3.c:442-450 | unlinking the node found by the walk is splicing that position out |
| Phase3State.WithoutSubset | phase3/phase3.c:439-452 | unlinking adds no new element to the list |
| Phase3State.WithoutMembers | phase3/phase3.c:439-452 | on a list without repeats, the removed process is gone and every other one remains |
| Phase3State.WithoutDistinct | phase3/phase3.c:439-452 | unlinking keeps a list free of repeats |
| Phase3State.AppendThenWithout | phase3/phase3.c:412-424 | appending a child and unlinking it again gives back the list (unlink at lines 439-452) |
| Phase3Spec.SemCreateSpec | phase3/phase3.c:271-298 | semCreate keeps the table invariant |
| Phase3Spec.SemPSpec | phase3/phase3.c:300-318 | semP up to waiting keeps the table invariant |
| Phase3Spec.SemPResumeSpec | phase3/phase3.c:319-329 | the rest of semP keeps the table invariant |
| Phase3Spec.SemVSpec | phase3/phase3.c:332-360 | semV keeps the table invariant |
| Phase3Spec.PrivateBoxes | phase3/phase3.c:380-385 | the list of signalled mailboxes has one entry per waiter, each that waiter's private mailbox |
| Phase3Spec.SemFreeSpec | phase3/phase3.c:362-391 | semFree keeps the table invariant |
| Phase3Spec.AddChildSpec | phase3/phase3.c:412-424 | addChildToList keeps the table invariant |
| Phase3Spec.RemoveChildSpec | phase3/phase3.c:439-452 | removeFromChildList keeps the table invariant |
| Phase3Spec.SpawnSpec | phase3/phase3.c:122-144 | spawn changes only arg1 and arg4 of the argument block |
| Phase3Properties.SemCreateFirstFit | phase3/phase3.c:271-298 | a negative count answers -1 with no change; otherwise the lowest free entry becomes active with that count, no waiters and its mutex mailbox, its index in arg1 and 0 in arg4; -1 exactly when the table is full |
| Phase3Properties.SemOpsRejectBadIndex | phase3/phase3.c:303-312 | an index outside the table or of a free entry makes semP, semV and semFree answer -1 with no change (also lines 335-344, 365-374) |
| Phase3Properties.SemPWaitsExactlyWhenUnavailable | phase3/phase3.c:315-329 | semP waits if and only if the count is below one; a waiter is appended to the blocked list, otherwise the count drops by one; no other entry changes |
| Phase3Properties.SemVEffect | phase3/phase3.c:347-359 | semV adds one unit and, with waiters, removes exactly the head and signals its private mailbox, keeping the rest in order |
| Phase3Properties.SemFreeEffect | phase3/phase3.c:362-391 | semFree frees the entry, empties its blocked list, signals every waiter's private mailbox in order, and sets arg4 to 1 exactly when there were waiters |
| Phase3Properties.PThenVRestores | phase3/phase3.c:324-358 | a P that does not wait followed by a V leaves the tables unchanged |
| Phase3Properties.WaiterTakesTheUnitOfV | phase3/phase3.c:316-329 | a P that waits, a V that signals it and the resumed P leave the semaphore as it was before the P (V at lines 348-354) |
| Phase3Properties.FreedWaitersTerminate | phase3/phase3.c:319-323 | a process waiting on a freed semaphore terminates with status 1 when it resumes |
| Phase3Properties.AddChildAppends | phase3/phase3.c:412-424 | the child is appended at the tail of the caller's list and no other entry changes |
| Phase3Properties.RemoveChildUnlinks | phase3/phase3.c:439-452 | the process's first occurrence is spliced out of its parent's list, every other child is kept in order, and the process is marked empty |
| Phase3Properties.RemoveChildKeepsSiblings | phase3/phase3.c:439-452 | on a list without repeats, the removed process is no longer a child and every sibling still is |
| Phase3Properties.AddThenRemoveRestores | phase3/phase3.c:412-424 | a child added and later removed leaves its parent's child list as it was (removal at lines 439-452) |
| Phase3Properties.SpawnChecksArguments | phase3/phase3.c:126-141 | spawn sets arg4 to -1 exactly for a wrong call number, a stack below the minimum or a priority out of range; otherwise it returns the new pid in arg1 and 0 in arg4 |
| Phase3Kernel.Kernel.constructor | phase3/phase3.c:45-53 | the arrays hold exactly start2's empty tables |
| Phase3Kernel.Kernel.SemCreate | phase3/phase3.c:271-298 | the in-place semCreate is SemCreateSpec |
| Phase3Kernel.Kernel.SemP | phase3/phase3.c:300-318 | the in-place semP up to waiting is SemPSpec |
| Phase3Kernel.Kernel.AddToSemBlockList | phase3/phase3.c:454-466 | the process entry is appended at the tail of the semaphore's blocked list and nothing else changes |
| Phase3Kernel.Kernel.SemPResume | phase3/phase3.c:319-329 | the in-place rest of semP is SemPResumeSpec |
| Phase3Kernel.Kernel.SemV | phase3/phase3.c:332-360 | the in-place semV is SemVSpec |
| Phase3Kernel.Kernel.SemFree | phase3/phase3.c:362-391 | the in-place semFree with its drain loop is SemFreeSpec |
| Phase3Kernel.Kernel.AddChildToList | phase3/phase3.c:412-424 | the in-place addChildToList is AddChildSpec |
| Phase3Kernel.Kernel.RemoveFromChildList | phase3/phase3.c:439-452 | the in-place removeFromChildList is RemoveChildSpec |
| Phase3Kernel.FindChild | phase3/phase3.c:445-448 | the list walk stops at the first occurrence of the process |
| Phase3Kernel.PrivateBoxesAppend | phase3/phase3.c:381-385 | one more drained waiter adds its private mailbox at the end of the signalled list |
| Findings.MboxIdGuardAdmitsOnePastTheEnd | phase2/phase2.c:176-179 | the id test as written lets MAXMBOX, one past the table, through, and differs from the bounds test on that id only (also line 381) |
| Findings.ResumedSenderRefillsFreedMailbox | phase2/phase2.c:204-257 | as written, a sender woken by a receive finishes on a mailbox that was released and freed meanwhile, leaving a free entry holding a queued slot; corrected, it answers -3 |
| Findings.RegisterAsWritten | phase2/phase2.c:188-191 | claiming a record without clearing its released flag keeps the table invariant |
| Findings.StaleReleaseFlagLosesDeliveredMessage | phase2/phase2.c:189-191 | as written, a process once woken by MboxRelease later gets -3 from a receive whose message was delivered to it; corrected, it gets the length (flag set at lines 357 and 364, cleared only at 591) |
| Findings.SemIndexGuardAdmitsOnePastTheEnd | phase3/phase3.c:303-306 | the index test as written lets MAXSEMS, one past the table, through, and differs from the bounds test on that index only (also lines 335, 365) |
| Findings.CorrectedSemIndexRefusesMaxSems | phase3/phase3.c:303-306 | with the corrected test, MAXSEMS and every other out-of-table index makes semP, semV and semFree answer -1 with no change |

## Left out

- Interrupt enabling and disabling, the PSR, `check_kernel_mode`/`checkKernelMode`, `setUserMode` and `USLOSS_Console`. Each operation is one atomic step of the model. So the missing `enableInterrupts` on the -2 and -1 returns of MboxCondSend (`phase2/phase2.c:399-406`, `432-434`) has no counterpart.
- The scheduler calls `blockMe`, `unblockProc`, `timeSlice`, `getpid`, `isZapped` and `Terminate`. They become outcomes, the `woken` list and parameters; the scheduler itself is not part of this model.
- The header files defining MAXMBOX, MAXSLOTS, MAX_MESSAGE, MAXPROC, MAXSEMS, USLOSS_MIN_STACK, MINPRIORITY, MAXPRIORITY and SYS_SPAWN are not part of this model. `Limits` uses the values of the course's USLOSS headers.
- `MboxReceive`, `MboxCondReceive` and `waitDevice` have no range check on the mailbox id (`phase2/phase2.c:277`, `463`) or on the device unit (`523-531`). An invalid argument indexes outside the table, which is undefined behaviour in C. So the model's ReceiveSpec, CondReceiveSpec and WaitMailbox require a valid argument.
- Stale `next` links are not modelled. In phase 2, `zeroMboxProc` clears a record's `nextBlockSend` and `nextBlockRecv` only at start-up (`phase2/phase2.c:95`, `592-593`). Every dequeue (lines 220, 329, 359, 366, 417, 501) leaves the dequeued record's link set, and the tail appends at lines 196-202 and 300-306 do not clear the appended record's own link. So with blocked senders A then B, a receive wakes A with A's link still at B; if A then blocks again on the same full mailbox, the walk sets B's link to A, the list becomes the cycle A, B, A, and the next tail walk does not end. In phase 3, `addChildToList` and `addToSemBlockList` also append a node without clearing its own `next` pointer. The sequences of the model assume every appended node ends its list, so these cycles cannot arise in it.
- `memcpy` between raw buffers becomes copying a byte sequence. A slot's `msgSize` is the length of its bytes. A receiver's `message` is the buffer contents only as far as a sender wrote them.
- The casts `(int)(long) args->arg1` and `(long) args->argN` are not modelled: arguments are unbounded integers, and pointer arguments are integers that are never inspected.
- The mutex mailbox of each semaphore and the `MboxSend`/`MboxReceive` pairs on it in `semP` and `semV` only serialise the calls. Each semaphore call is one atomic step here. The private-mailbox sends of `semV` and `semFree` become the `signals` list.
- `syscallHandler`, `nullsys` and the system call vector; `spawnReal`, `spawnLaunch`, `wait`, `waitReal`, `terminate`, `getPid`, `getTimeOfDay` and `cpuTime`; and phases 4 and 5. These are process creation, scheduling and the user library, not part of this model. The parent link that `spawnReal` records (`phase3/phase3.c:183-184`) is the `parent` field.
- `USLOSS_DeviceInput` becomes the `status` parameter of the handlers.
- SendRejectsBadArguments: a negative `msg_size` is not modelled, because a message is its bytes and its size is their length; SendSpec and CondSendSpec take no separate size. In C nothing bounds `msg_size` below. On a free mailbox, where numSlots, slotsUsed and slotSize are all -1 (`phase2/phase2.c:571-573`), MboxSend with `msg_size = -1` passes the size test at line 183 and blocks the caller at line 194, and MboxCondSend passes line 388 and answers -2 at line 399. The free-mailbox -1 of SendRejectsBadArguments holds for every size the model can express, which is every size from 0 up.
- MailboxEngine.MailSystem.DeviceHandler: one method stands for diskHandler and termHandler, and its `Device` argument selects the handler. So the halt on a device code that does not match the handler (`phase2/phase2.c:627`, `643`) cannot arise; only the unit check is modelled.
- Queued slots of a mailbox freed by MboxRelease are not returned to the pool. This is modelled as written: `MailboxProperties.ReleaseEffect` keeps the slots unchanged.
- A woken sender delivers without checking capacity (`phase2/phase2.c:209-257`), so a mailbox can hold more messages than its capacity. This is modelled as written: the table invariant does not bound `slotsUsed` by `numSlots`.

## Findings

| source | as written | input that shows it | evidently intended | confidence | as-written member | corrected member |
|---|---|---|---|---|---|---|
| phase2/phase2.c:176-179 | `mbox_id > MAXMBOX \|\| mbox_id < 0` rejects ids outside the table (same test at line 381) | `mbox_id = MAXMBOX` passes and indexes one past `MailBoxTable` | `mbox_id >= MAXMBOX` | not executed | Findings.MboxIdGuardAdmitsOnePastTheEnd | MailboxProperties.SendRejectsBadArguments |
| phase2/phase2.c:204-257 | a woken sender checks only `mboxReleased`, then delivers | one-slot mailbox: p1 sends, p2 blocks sending, p3 receives (waking p2), the now idle mailbox is released and freed, p2 runs | answer -3 when the mailbox was freed meanwhile | not executed | Findings.ResumedSenderRefillsFreedMailbox | MailboxSpec.ResumeSendSpec |
| phase2/phase2.c:189-191 | the caller's record is claimed but `mboxReleased`, set at lines 357 and 364, is cleared only by `zeroMboxProc` at start-up | a receiver woken by MboxRelease later blocks on another mailbox, a sender hands it a message, its MboxReceive returns -3 | clear the flag when a call claims the record | not executed | Findings.StaleReleaseFlagLosesDeliveredMessage | MailboxProperties.Rendezvous |
| phase3/phase3.c:303-306 | `semIndex < 0 \|\| semIndex > MAXSEMS` (same test at lines 335 and 365) | `semIndex = MAXSEMS` passes and indexes one past `semTable` | `semIndex >= MAXSEMS` | not executed | Findings.SemIndexGuardAdmitsOnePastTheEnd | Findings.CorrectedSemIndexRefusesMaxSems |
