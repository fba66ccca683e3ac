/** The semaphore table and process table of phase3/phase3.c as arrays
    updated in place, with each entry point proved to do what its function
    in Phase3Spec describes. getpid() is the parameter `caller`; the
    argument block is passed in and handed back. */
module Phase3Kernel {
  import opened Limits
  import opened Scan
  import opened Phase3State
  import opened Phase3Spec

  class Kernel {
    /** semTable and procTable. */
    const sems: array<Semaphore>
    const procs: array<Proc3>

    /** The tables as a value. */
    ghost function State(): Kernel3
      reads sems, procs
    {
      Kernel3(sems[..], procs[..])
    }

    ghost predicate Valid()
      reads sems, procs
    {
      Kernel3Ok(State())
    }

    /** start2: every entry of both tables EMPTY. */
    constructor ()
      ensures Valid() && fresh(sems) && fresh(procs)
      ensures State() == InitialKernel3()
    {
      var p := new Proc3[MAXPROC];
      for i := 0 to MAXPROC
        invariant forall j :: 0 <= j < i ==> p[j] == FreeProc3()
      {
        p[i] := FreeProc3();
      }
      assert p[..] == InitialKernel3().procs;
      var s := new Semaphore[MAXSEMS];
      for i := 0 to MAXSEMS
        modifies s
        invariant forall j :: 0 <= j < i ==> s[j] == FreeSemaphore()
      {
        s[i] := FreeSemaphore();
      }
      assert s[..] == InitialKernel3().sems;
      sems, procs := s, p;
    }

    /** semCreate. */
    method SemCreate(args: SysArgs, mutexBox: int) returns (args': SysArgs)
      requires Valid()
      modifies sems
      ensures Valid()
      ensures var r := SemCreateSpec(old(State()), args, mutexBox);
        State() == r.k && args' == r.args
    {
      if args.arg1 < 0 {
        return args.(arg4 := -1);
      }
      var index := 0;
      while index < sems.Length
        invariant 0 <= index <= sems.Length
        invariant forall j :: 0 <= j < index ==> !SemIsFree(sems[j])
      {
        if sems[index].status == Empty {
          break;
        }
        index := index + 1;
      }
      if index == MAXSEMS {
        return args.(arg4 := -1);
      }
      FirstWhereAt(sems[..], SemIsFree, index);
      sems[index] := Semaphore(Active, args.arg1, [], mutexBox);
      return args.(arg1 := index, arg4 := 0);
    }

    /** semP up to the point where it returns or waits. */
    method SemP(args: SysArgs, caller: int) returns (args': SysArgs, out: SemOutcome)
      requires Valid()
      modifies sems
      ensures Valid()
      ensures var r := SemPSpec(old(State()), args, caller);
        State() == r.k && args' == r.args && out == r.out
    {
      var semIndex := args.arg1;
      if semIndex < 0 || semIndex >= MAXSEMS {
        return args.(arg4 := -1), Done;
      }
      if sems[semIndex].status == Empty {
        return args.(arg4 := -1), Done;
      }
      if sems[semIndex].count < 1 {
        AddToSemBlockList(RecordOf(caller), semIndex);
        return args, Suspended;
      }
      sems[semIndex] := sems[semIndex].(count := sems[semIndex].count - 1);
      return args.(arg4 := 0), Done;
    }

    /** addToSemBlockList: append a process entry to the blocked list. */
    method AddToSemBlockList(p: int, semIndex: int)
      requires Valid() && IsProcIndex(p) && SemIndexOk(semIndex) && sems[semIndex].status != Empty
      modifies sems
      ensures Valid()
      ensures sems[..] == old(sems[..])[semIndex := old(sems[semIndex]).(blocked := old(sems[semIndex].blocked) + [p])]
    {
      sems[semIndex] := sems[semIndex].(blocked := sems[semIndex].blocked + [p]);
    }

    /** The rest of semP once the caller's private mailbox is signalled. */
    method SemPResume(args: SysArgs) returns (args': SysArgs, out: SemOutcome)
      requires Valid() && SemIndexOk(args.arg1)
      modifies sems
      ensures Valid()
      ensures var r := SemPResumeSpec(old(State()), args);
        State() == r.k && args' == r.args && out == r.out
    {
      var semIndex := args.arg1;
      if sems[semIndex].status == Empty {
        return args, Terminated(1);
      }
      sems[semIndex] := sems[semIndex].(count := sems[semIndex].count - 1);
      return args.(arg4 := 0), Done;
    }

    /** semV. */
    method SemV(args: SysArgs) returns (args': SysArgs, signals: seq<int>)
      requires Valid()
      modifies sems
      ensures Valid()
      ensures var r := SemVSpec(old(State()), args);
        State() == r.k && args' == r.args && signals == r.signals
    {
      var semIndex := args.arg1;
      if semIndex < 0 || semIndex >= MAXSEMS {
        return args.(arg4 := -1), [];
      }
      if sems[semIndex].status == Empty {
        return args.(arg4 := -1), [];
      }
      sems[semIndex] := sems[semIndex].(count := sems[semIndex].count + 1);
      signals := [];
      if sems[semIndex].blocked != [] {
        var blockProcMboxID := procs[sems[semIndex].blocked[0]].mboxID;
        sems[semIndex] := sems[semIndex].(blocked := sems[semIndex].blocked[1..]);
        signals := [blockProcMboxID];
      }
      return args.(arg4 := 0), signals;
    }

    /** semFree: the drain loop signals each waiter's private mailbox. */
    method SemFree(args: SysArgs) returns (args': SysArgs, signals: seq<int>)
      requires Valid()
      modifies sems
      ensures Valid()
      ensures var r := SemFreeSpec(old(State()), args);
        State() == r.k && args' == r.args && signals == r.signals
    {
      var semIndex := args.arg1;
      if semIndex < 0 || semIndex >= MAXSEMS {
        return args.(arg4 := -1), [];
      }
      if sems[semIndex].status == Empty {
        return args.(arg4 := -1), [];
      }
      ghost var waiters := sems[semIndex].blocked;
      ghost var s0 := sems[..];
      sems[semIndex] := sems[semIndex].(status := Empty);
      signals := [];
      var hadWaiters := sems[semIndex].blocked != [];
      while sems[semIndex].blocked != []
        invariant |signals| <= |waiters|
        invariant sems[semIndex].blocked == waiters[|signals|..]
        invariant signals == PrivateBoxes(procs[..], waiters[..|signals|])
        invariant sems[..] == s0[semIndex := s0[semIndex].(status := Empty, blocked := waiters[|signals|..])]
        decreases |sems[semIndex].blocked|
      {
        var privateMboxID := procs[sems[semIndex].blocked[0]].mboxID;
        assert waiters[..|signals| + 1] == waiters[..|signals|] + [waiters[|signals|]];
        PrivateBoxesAppend(procs[..], waiters[..|signals|], waiters[|signals|]);
        signals := signals + [privateMboxID];
        sems[semIndex] := sems[semIndex].(blocked := sems[semIndex].blocked[1..]);
      }
      assert waiters[..|signals|] == waiters;
      return args.(arg4 := if hadWaiters then 1 else 0), signals;
    }

    /** addChildToList: the caller's entry gets `child` at the tail. */
    method AddChildToList(caller: int, child: int)
      requires Valid() && IsProcIndex(child)
      modifies procs
      ensures Valid()
      ensures State() == AddChildSpec(old(State()), caller, child)
    {
      var parent := RecordOf(caller);
      procs[parent] := procs[parent].(children := procs[parent].children + [child]);
    }

    /** removeFromChildList: find the process in its parent's child list,
        splice it out, and mark it EMPTY. */
    method RemoveFromChildList(c: int)
      requires Valid() && Linked(State(), c)
      modifies procs
      ensures Valid()
      ensures State() == RemoveChildSpec(old(State()), c)
    {
      ghost var k0 := State();
      var parent := procs[c].parent;
      var list := procs[parent].children;
      var i := FindChild(list, c);
      WithoutAt(list, c, i);
      procs[parent] := procs[parent].(children := list[..i] + list[i + 1..]);
      procs[c] := procs[c].(status := Empty);
      assert procs[..] == RemoveChildSpec(k0, c).procs;
    }
  }

  /** The list walk of removeFromChildList: the position of the first
      occurrence of `c` in a list that holds it. */
  method FindChild(list: seq<int>, c: int) returns (i: int)
    requires c in list
    ensures 0 <= i < |list| && list[i] == c && c !in list[..i]
  {
    i := 0;
    while list[i] != c
      invariant 0 <= i < |list| && c in list[i..]
      invariant c !in list[..i]
      decreases |list| - i
    {
      assert list[i..] == [list[i]] + list[i + 1..];
      assert list[..i + 1] == list[..i] + [list[i]];
      i := i + 1;
    }
  }

  /** One more waiter adds its private mailbox at the end. */
  lemma {:induction false} PrivateBoxesAppend(procs: seq<Proc3>, list: seq<int>, p: int)
    requires forall j :: 0 <= j < |list| ==> 0 <= list[j] < |procs|
    requires 0 <= p < |procs|
    ensures PrivateBoxes(procs, list + [p]) == PrivateBoxes(procs, list) + [procs[p].mboxID]
  {
    var a := PrivateBoxes(procs, list + [p]);
    var b := PrivateBoxes(procs, list) + [procs[p].mboxID];
    assert |a| == |b|;
    assert forall j :: 0 <= j < |a| ==> a[j] == b[j];
  }
}
