/** The device-notification bridge of phase2/phase2.c: which reserved
    mailbox belongs to which device, how waitDevice reports a receive, and
    the clock handler's tick counter. */
module Devices {
  /** The interrupt sources that own a mailbox. USLOSS's numeric device
      codes are not needed: waitDevice only distinguishes these three. */
  datatype Device = Clock | Disk(unit: int) | Term(unit: int)

  /** The units the handlers accept (two disks, four terminals). */
  predicate ValidDevice(d: Device) {
    match d
    case Clock => true
    case Disk(u) => 0 <= u <= 1
    case Term(u) => 0 <= u <= 3
  }

  /** waitDevice's lookup tables diskID[] and termID[]. */
  const DISK_IDS: seq<int> := [1, 2]
  const TERM_IDS: seq<int> := [3, 4, 5, 6]

  /** The mailbox waitDevice receives on. */
  function WaitMailbox(d: Device): (id: int)
    requires ValidDevice(d)
    ensures 0 <= id < 7
  {
    match d
    case Clock => 0
    case Disk(u) => DISK_IDS[u]
    case Term(u) => TERM_IDS[u]
  }

  /** The mailbox the interrupt handler sends on: 0, unit + 1, unit + 3. */
  function HandlerMailbox(d: Device): (id: int)
    requires ValidDevice(d)
  {
    match d
    case Clock => 0
    case Disk(u) => u + 1
    case Term(u) => u + 3
  }

  /** Each handler sends where waitDevice for the same device listens. */
  lemma HandlersSendWhereWaitersReceive(d: Device)
    requires ValidDevice(d)
    ensures HandlerMailbox(d) == WaitMailbox(d)
  {
    match d
    case Clock =>
    case Disk(u) => assert u == 0 || u == 1;
    case Term(u) => assert u == 0 || u == 1 || u == 2 || u == 3;
  }

  /** No two devices share a mailbox. */
  lemma DeviceMailboxesDistinct(d1: Device, d2: Device)
    requires ValidDevice(d1) && ValidDevice(d2) && d1 != d2
    ensures WaitMailbox(d1) != WaitMailbox(d2)
  {
    HandlersSendWhereWaitersReceive(d1);
    HandlersSendWhereWaitersReceive(d2);
  }

  /** waitDevice's return value: -1 when the receive was aborted (-3),
      otherwise 0. */
  function WaitResult(code: int): (r: int)
    ensures r == -1 <==> code == -3
    ensures r == 0 <==> code != -3
  {
    if code == -3 then -1 else 0
  }

  /** clockHandler2 forwards the clock status on every fifth tick. */
  predicate ClockFires(count: int) {
    count + 1 >= 5
  }

  /** clockCounter after one tick. */
  function NextClockCount(count: int): (c: int)
    requires 0 <= count <= 4
    ensures 0 <= c <= 4
    ensures c == 0 <==> ClockFires(count)
  {
    if count + 1 >= 5 then 0 else count + 1
  }

  /** clockCounter after n ticks from start1's 0. */
  function CountAfter(n: nat): (c: int)
    ensures 0 <= c <= 4
  {
    if n == 0 then 0 else NextClockCount(CountAfter(n - 1))
  }

  /** The counter is the number of ticks modulo 5, so the status is sent on
      ticks 5, 10, 15, ... and on no others. */
  lemma {:induction false} ClockCountIsTicksModFive(n: nat)
    ensures CountAfter(n) == n % 5
    ensures ClockFires(CountAfter(n)) <==> (n + 1) % 5 == 0
  {
    if n > 0 {
      ClockCountIsTicksModFive(n - 1);
      ModFiveStep(n - 1);
    }
    ModFiveStep(n);
  }

  /** Counting modulo 5 one step further. */
  lemma ModFiveStep(k: nat)
    ensures (k + 1) % 5 == if k % 5 == 4 then 0 else k % 5 + 1
  {
    var q := k / 5;
    var m := k % 5;
    assert k == 5 * q + m;
    if m == 4 {
      assert k + 1 == 5 * (q + 1) + 0;
    } else {
      assert k + 1 == 5 * q + (m + 1);
    }
  }
}
