/** The semaphore system calls, the child-list operations and the argument
    checks of spawn in phase3/phase3.c, as functions on the tables and the
    argument block.

    The mailbox calls a semaphore operation makes on the semaphore's own
    mailbox only serialise it against the others and are not modelled. A
    semP that has to wait is split into the call (`Suspended`, the caller
    queued) and the resume once its private mailbox is signalled. The
    private-mailbox sends semV and semFree make are listed in `signals`. */
module Phase3Spec {
  import opened Limits
  import opened Scan
  import opened Phase3State

  /** Whether a call returned, suspended its caller, or terminated it. */
  datatype SemOutcome = Done | Suspended | Terminated(status: int)

  /** The tables and argument block after a call, the private mailboxes it
      signalled, in order, and its outcome. */
  datatype Step3 = Step3(k: Kernel3, args: SysArgs, signals: seq<int>, out: SemOutcome)

  /** A call that only reports a result in arg4. */
  function Answer(k: Kernel3, args: SysArgs, code: int): Step3 {
    Step3(k, args.(arg4 := code), [], Done)
  }

  /** The range check on a semaphore index. The source tests
      `semIndex > MAXSEMS`; this is the corrected test (see README, Findings). */
  predicate SemIndexOk(i: int) {
    0 <= i < MAXSEMS
  }

  /** A semaphore index that names an entry in use. */
  predicate LiveSem(k: Kernel3, i: int)
    requires Kernel3Ok(k)
  {
    SemIndexOk(i) && k.sems[i].status != Empty
  }

  /** semCreate: arg1 is the initial value; `mutexBox` is the mailbox
      MboxCreate(1, 0) hands back for the new semaphore. */
  function SemCreateSpec(k: Kernel3, args: SysArgs, mutexBox: int): (r: Step3)
    requires Kernel3Ok(k)
    ensures Kernel3Ok(r.k)
  {
    if args.arg1 < 0 then Answer(k, args, -1)
    else
      var i := FirstWhere(k.sems, SemIsFree);
      if i == -1 then Answer(k, args, -1)
      else
        Step3(k.(sems := k.sems[i := Semaphore(Active, args.arg1, [], mutexBox)]),
              args.(arg1 := i, arg4 := 0), [], Done)
  }

  /** semP up to the point where it returns or waits on the caller's
      private mailbox (addToSemBlockList appends the caller's entry). */
  function SemPSpec(k: Kernel3, args: SysArgs, caller: int): (r: Step3)
    requires Kernel3Ok(k)
    ensures Kernel3Ok(r.k)
  {
    if !LiveSem(k, args.arg1) then Answer(k, args, -1)
    else
      var i := args.arg1;
      var s := k.sems[i];
      if s.count < 1 then
        Step3(k.(sems := k.sems[i := s.(blocked := s.blocked + [RecordOf(caller)])]), args, [], Suspended)
      else
        Step3(k.(sems := k.sems[i := s.(count := s.count - 1)]), args.(arg4 := 0), [], Done)
  }

  /** The rest of semP once the caller's private mailbox is signalled:
      terminate with status 1 if the semaphore was freed meanwhile,
      otherwise take the unit semV added. */
  function SemPResumeSpec(k: Kernel3, args: SysArgs): (r: Step3)
    requires Kernel3Ok(k) && SemIndexOk(args.arg1)
    ensures Kernel3Ok(r.k)
  {
    var i := args.arg1;
    var s := k.sems[i];
    if s.status == Empty then Step3(k, args, [], Terminated(1))
    else Step3(k.(sems := k.sems[i := s.(count := s.count - 1)]), args.(arg4 := 0), [], Done)
  }

  /** semV: add one unit and signal the longest waiter, if any. */
  function SemVSpec(k: Kernel3, args: SysArgs): (r: Step3)
    requires Kernel3Ok(k)
    ensures Kernel3Ok(r.k)
  {
    if !LiveSem(k, args.arg1) then Answer(k, args, -1)
    else
      var i := args.arg1;
      var s := k.sems[i];
      var s1 := s.(count := s.count + 1);
      if s.blocked != [] then
        Step3(k.(sems := k.sems[i := s1.(blocked := s.blocked[1..])]), args.(arg4 := 0),
              [k.procs[s.blocked[0]].mboxID], Done)
      else
        Step3(k.(sems := k.sems[i := s1]), args.(arg4 := 0), [], Done)
  }

  /** The private mailboxes of the processes in `list`, in order. */
  function PrivateBoxes(procs: seq<Proc3>, list: seq<int>): (ids: seq<int>)
    requires forall j :: 0 <= j < |list| ==> 0 <= list[j] < |procs|
    ensures |ids| == |list|
    ensures forall j :: 0 <= j < |list| ==> ids[j] == procs[list[j]].mboxID
  {
    if list == [] then [] else [procs[list[0]].mboxID] + PrivateBoxes(procs, list[1..])
  }

  /** semFree: free the entry and signal every waiter, oldest first; arg4
      says whether there were waiters. */
  function SemFreeSpec(k: Kernel3, args: SysArgs): (r: Step3)
    requires Kernel3Ok(k)
    ensures Kernel3Ok(r.k)
  {
    if !LiveSem(k, args.arg1) then Answer(k, args, -1)
    else
      var i := args.arg1;
      var s := k.sems[i];
      Step3(k.(sems := k.sems[i := s.(status := Empty, blocked := [])]),
            args.(arg4 := if s.blocked != [] then 1 else 0),
            PrivateBoxes(k.procs, s.blocked), Done)
  }

  /** addChildToList: append entry `child` to the caller's child list. */
  function AddChildSpec(k: Kernel3, caller: int, child: int): (k': Kernel3)
    requires Kernel3Ok(k) && IsProcIndex(child)
    ensures Kernel3Ok(k')
  {
    var p := RecordOf(caller);
    k.(procs := k.procs[p := k.procs[p].(children := k.procs[p].children + [child])])
  }

  /** A process that is linked into its parent's child list. */
  predicate Linked(k: Kernel3, c: int)
    requires Kernel3Ok(k)
  {
    IsProcIndex(c) && k.procs[c].parent != -1 && c in k.procs[k.procs[c].parent].children
  }

  /** removeFromChildList: unlink entry `c` from its parent's child list and
      mark it EMPTY. The source walks the list until it finds `c`, so `c`
      must be on it. */
  function RemoveChildSpec(k: Kernel3, c: int): (k': Kernel3)
    requires Kernel3Ok(k) && Linked(k, c)
    ensures Kernel3Ok(k')
  {
    var par := k.procs[c].parent;
    WithoutSubset(k.procs[par].children, c);
    var procs1 := k.procs[par := k.procs[par].(children := Without(k.procs[par].children, c))];
    k.(procs := procs1[c := procs1[c].(status := Empty)])
  }

  /** The argument checks of spawn: a wrong call number, a stack below the
      minimum or a priority outside [MAXPRIORITY, MINPRIORITY] set arg4 to
      -1; otherwise arg1 gets the pid spawnReal returned (`childPid`) and
      arg4 gets 0. */
  function SpawnSpec(args: SysArgs, childPid: int): (r: SysArgs)
    ensures r.number == args.number && r.arg2 == args.arg2 && r.arg3 == args.arg3 && r.arg5 == args.arg5
  {
    if args.number != SYS_SPAWN then args.(arg4 := -1)
    else if args.arg3 < USLOSS_MIN_STACK then args.(arg4 := -1)
    else if args.arg4 > MINPRIORITY || args.arg4 < MAXPRIORITY then args.(arg4 := -1)
    else args.(arg1 := childPid, arg4 := 0)
  }
}
