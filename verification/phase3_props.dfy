/** What the semaphore calls, the child-list operations and spawn's checks
    promise, proved about their specifications in Phase3Spec. */
module Phase3Properties {
  import opened Limits
  import opened Scan
  import opened Phase3State
  import opened Phase3Spec

  // ------------------------------------------------------------ semaphores

  /** semCreate refuses a negative initial value without touching the
      table; otherwise it takes the lowest free entry, makes it ACTIVE with
      the requested count, no waiters and its new mailbox, and returns the
      index in arg1 with arg4 = 0; arg4 is -1 exactly when no entry is free. */
  lemma SemCreateFirstFit(k: Kernel3, args: SysArgs, mutexBox: int)
    requires Kernel3Ok(k)
    ensures var r := SemCreateSpec(k, args, mutexBox);
      && r.out == Done && r.signals == []
      && (args.arg1 < 0 ==> r.k == k && r.args == args.(arg4 := -1))
      && (args.arg1 >= 0 ==>
            && (r.args.arg4 == -1 <==> forall j :: 0 <= j < MAXSEMS ==> k.sems[j].status != Empty)
            && (r.args.arg4 == -1 ==> r.k == k && r.args == args.(arg4 := -1))
            && (r.args.arg4 != -1 ==>
                  var i := r.args.arg1;
                  && r.args == args.(arg1 := i, arg4 := 0)
                  && 0 <= i < MAXSEMS && k.sems[i].status == Empty
                  && (forall j :: 0 <= j < i ==> k.sems[j].status != Empty)
                  && r.k == k.(sems := k.sems[i := Semaphore(Active, args.arg1, [], mutexBox)])))
  {
  }

  /** semP, semV and semFree answer -1 and change nothing when the index is
      out of range or names a free entry. */
  lemma SemOpsRejectBadIndex(k: Kernel3, args: SysArgs, caller: int)
    requires Kernel3Ok(k) && !LiveSem(k, args.arg1)
    ensures SemPSpec(k, args, caller) == Step3(k, args.(arg4 := -1), [], Done)
    ensures SemVSpec(k, args) == Step3(k, args.(arg4 := -1), [], Done)
    ensures SemFreeSpec(k, args) == Step3(k, args.(arg4 := -1), [], Done)
  {
  }

  /** semP on a live semaphore waits exactly when the count is below one;
      a waiting caller is appended to the blocked list and the count is
      untouched, otherwise the count drops by one. No other entry changes. */
  lemma SemPWaitsExactlyWhenUnavailable(k: Kernel3, args: SysArgs, caller: int)
    requires Kernel3Ok(k) && LiveSem(k, args.arg1)
    ensures var r := SemPSpec(k, args, caller); var i := args.arg1; var s := k.sems[i];
      && (r.out == Suspended <==> s.count < 1)
      && r.signals == [] && r.k.procs == k.procs
      && (forall j :: 0 <= j < MAXSEMS && j != i ==> r.k.sems[j] == k.sems[j])
      && (r.out == Suspended ==>
            r.args == args && r.k.sems[i] == s.(blocked := s.blocked + [RecordOf(caller)]))
      && (r.out != Suspended ==>
            r.out == Done && r.args == args.(arg4 := 0) && r.k.sems[i] == s.(count := s.count - 1))
  {
  }

  /** semV adds exactly one unit; with waiters it removes exactly the head
      of the blocked list, keeps the rest in order and signals the head's
      private mailbox, without waiters it signals nothing. */
  lemma SemVEffect(k: Kernel3, args: SysArgs)
    requires Kernel3Ok(k) && LiveSem(k, args.arg1)
    ensures var r := SemVSpec(k, args); var i := args.arg1; var s := k.sems[i];
      && r.out == Done && r.args == args.(arg4 := 0) && r.k.procs == k.procs
      && (forall j :: 0 <= j < MAXSEMS && j != i ==> r.k.sems[j] == k.sems[j])
      && r.k.sems[i].count == s.count + 1
      && r.k.sems[i].status == s.status && r.k.sems[i].mboxID == s.mboxID
      && (s.blocked == [] ==> r.k.sems[i].blocked == [] && r.signals == [])
      && (s.blocked != [] ==>
            && s.blocked == [s.blocked[0]] + r.k.sems[i].blocked
            && r.signals == [k.procs[s.blocked[0]].mboxID])
  {
  }

  /** semFree frees the entry and empties its blocked list, signals every
      waiter's private mailbox in queue order, and reports in arg4 whether
      there were waiters. */
  lemma SemFreeEffect(k: Kernel3, args: SysArgs)
    requires Kernel3Ok(k) && LiveSem(k, args.arg1)
    ensures var r := SemFreeSpec(k, args); var i := args.arg1; var s := k.sems[i];
      && r.out == Done && r.k.procs == k.procs
      && (forall j :: 0 <= j < MAXSEMS && j != i ==> r.k.sems[j] == k.sems[j])
      && r.k.sems[i].status == Empty && r.k.sems[i].blocked == []
      && (r.args.arg4 == 1 <==> s.blocked != []) && (r.args.arg4 == 0 <==> s.blocked == [])
      && r.args == args.(arg4 := r.args.arg4)
      && |r.signals| == |s.blocked|
      && (forall j :: 0 <= j < |s.blocked| ==> r.signals[j] == k.procs[s.blocked[j]].mboxID)
  {
  }

  /** A P that does not wait followed by a V on the same semaphore gives
      the table back unchanged. */
  lemma PThenVRestores(k: Kernel3, args: SysArgs, caller: int)
    requires Kernel3Ok(k) && LiveSem(k, args.arg1)
    requires k.sems[args.arg1].count >= 1 && k.sems[args.arg1].blocked == []
    ensures var r1 := SemPSpec(k, args, caller);
      && r1.out == Done
      && SemVSpec(r1.k, r1.args).k == k
  {
    var i := args.arg1;
    var r1 := SemPSpec(k, args, caller);
    assert r1.k.sems[i] == k.sems[i].(count := k.sems[i].count - 1);
    assert r1.k.sems[i := r1.k.sems[i].(count := r1.k.sems[i].count + 1)] == k.sems;
  }

  /** A waiter is handed the unit a V adds: P on an exhausted semaphore
      with nobody waiting suspends the caller, V by another process signals
      the caller's private mailbox, and the resumed P leaves the semaphore
      exactly as it was before either call. */
  lemma {:induction false} WaiterTakesTheUnitOfV(k: Kernel3, args: SysArgs, caller: int)
    requires Kernel3Ok(k) && LiveSem(k, args.arg1)
    requires k.sems[args.arg1].count < 1 && k.sems[args.arg1].blocked == []
    ensures var r1 := SemPSpec(k, args, caller);
      var r2 := SemVSpec(r1.k, r1.args);
      var r3 := SemPResumeSpec(r2.k, args);
      && r1.out == Suspended
      && r2.signals == [k.procs[RecordOf(caller)].mboxID]
      && r3.out == Done && r3.args.arg4 == 0
      && r3.k == k
  {
    var i := args.arg1;
    var s := k.sems[i];
    var r1 := SemPSpec(k, args, caller);
    assert r1.k.sems[i] == s.(blocked := [RecordOf(caller)]);
    var r2 := SemVSpec(r1.k, r1.args);
    assert r2.k.sems[i] == s.(count := s.count + 1);
    var r3 := SemPResumeSpec(r2.k, args);
    assert r3.k.sems[i] == s;
    assert r3.k.sems == k.sems;
  }

  /** Every process still waiting when a semaphore is freed is terminated
      with status 1 when it resumes. */
  lemma FreedWaitersTerminate(k: Kernel3, args: SysArgs, waiterArgs: SysArgs)
    requires Kernel3Ok(k) && LiveSem(k, args.arg1) && waiterArgs.arg1 == args.arg1
    ensures var r := SemFreeSpec(k, args);
      SemPResumeSpec(r.k, waiterArgs) == Step3(r.k, waiterArgs, [], Terminated(1))
  {
  }

  // ----------------------------------------------------------- child lists

  /** addChildToList appends the child at the tail of the caller's list and
      changes no other entry. */
  lemma AddChildAppends(k: Kernel3, caller: int, child: int)
    requires Kernel3Ok(k) && IsProcIndex(child)
    ensures var k' := AddChildSpec(k, caller, child); var p := RecordOf(caller);
      && k'.sems == k.sems
      && k'.procs[p].children == k.procs[p].children + [child]
      && k'.procs[p] == k.procs[p].(children := k'.procs[p].children)
      && (forall j :: 0 <= j < MAXPROC && j != p ==> k'.procs[j] == k.procs[j])
  {
  }

  /** removeFromChildList takes exactly the process out of its parent's
      list (one element shorter, every other child kept in order: the list
      is the old one with that position spliced out), and marks it EMPTY. */
  lemma {:induction false} RemoveChildUnlinks(k: Kernel3, c: int)
    requires Kernel3Ok(k) && Linked(k, c)
    ensures var k' := RemoveChildSpec(k, c); var par := k.procs[c].parent;
      var old_ := k.procs[par].children;
      && k'.sems == k.sems
      && k'.procs[c].status == Empty
      && |k'.procs[par].children| == |old_| - 1
      && (exists i :: 0 <= i < |old_| && old_[i] == c && c !in old_[..i]
            && k'.procs[par].children == old_[..i] + old_[i + 1..])
      && (forall j :: 0 <= j < MAXPROC && j != par && j != c ==> k'.procs[j] == k.procs[j])
  {
    var par := k.procs[c].parent;
    var s := k.procs[par].children;
    var i := FirstWhere(s, y => y == c);
    assert s[i] == c && c !in s[..i];
    WithoutAt(s, c, i);
  }

  /** On a list without repetitions, the removed process is no longer a
      child and every other child still is. */
  lemma RemoveChildKeepsSiblings(k: Kernel3, c: int)
    requires Kernel3Ok(k) && Linked(k, c)
    requires Distinct(k.procs[k.procs[c].parent].children)
    ensures var k' := RemoveChildSpec(k, c); var par := k.procs[c].parent;
      forall y :: y in k'.procs[par].children <==> y in k.procs[par].children && y != c
  {
    WithoutMembers(k.procs[k.procs[c].parent].children, c);
  }

  /** A child added by its parent and later removed leaves the parent's
      child list as it was. */
  lemma AddThenRemoveRestores(k: Kernel3, caller: int, child: int)
    requires Kernel3Ok(k) && IsProcIndex(child)
    requires k.procs[child].parent == RecordOf(caller) && child !in k.procs[RecordOf(caller)].children
    ensures var k1 := AddChildSpec(k, caller, child);
      && Linked(k1, child)
      && RemoveChildSpec(k1, child).procs[RecordOf(caller)].children == k.procs[RecordOf(caller)].children
  {
    var p := RecordOf(caller);
    var k1 := AddChildSpec(k, caller, child);
    assert k1.procs[p].children == k.procs[p].children + [child];
    assert k1.procs[child].parent == p;
    AppendThenWithout(k.procs[p].children, child);
  }

  // ----------------------------------------------------------------- spawn

  /** spawn rejects exactly the three bad cases, setting only arg4; a valid
      call returns the new pid in arg1 and 0 in arg4. */
  lemma SpawnChecksArguments(args: SysArgs, childPid: int)
    ensures var r := SpawnSpec(args, childPid);
      var bad := args.number != SYS_SPAWN || args.arg3 < USLOSS_MIN_STACK
                 || args.arg4 < MAXPRIORITY || args.arg4 > MINPRIORITY;
      && (bad ==> r == args.(arg4 := -1))
      && (!bad ==> r == args.(arg1 := childPid, arg4 := 0))
      && (r.arg4 == -1 <==> bad)
  {
  }
}
