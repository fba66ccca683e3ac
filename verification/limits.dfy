/** Table sizes and limits shared by the mailbox layer (phase 2) and the
    semaphore/process layer (phase 3). The kernel's header files are not part
    of this model; the values are the ones the course's USLOSS headers use, and
    no proof depends on a particular value beyond its sign. */
module Limits {
  /** Number of entries in the mailbox table. */
  const MAXMBOX: int := 2000
  /** Number of message buffers in the global slot pool. */
  const MAXSLOTS: int := 2500
  /** Largest message, in bytes, a mailbox may be created for. */
  const MAX_MESSAGE: int := 150
  /** Number of process-table entries; a process's record lives at pid % MAXPROC. */
  const MAXPROC: int := 50
  /** Number of entries in the semaphore table. */
  const MAXSEMS: int := 200
  /** Smallest stack a spawned process may ask for. */
  const USLOSS_MIN_STACK: int := 80 * 1024
  /** Numerically smallest (= highest) and largest (= lowest) user priority. */
  const MAXPRIORITY: int := 1
  const MINPRIORITY: int := 5
  /** System-call number of Spawn. */
  const SYS_SPAWN: int := 3
  /** sizeof(int): the size of a device status word sent by the interrupt handlers. */
  const INT_SIZE: int := 4

  /** The entry of a process in a per-process table: phase 2's request
      table and phase 3's process table are both indexed by pid % MAXPROC
      (pids are never negative, so C's % and Dafny's agree). */
  function RecordOf(pid: int): (k: int)
    ensures 0 <= k < MAXPROC
  {
    pid % MAXPROC
  }
}
