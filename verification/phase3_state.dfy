/** The two tables of the phase 3 kernel layer (phase3/phase3.c): the
    semaphore table and the phase 3 process table. The intrusive lists of
    the source (a semaphore's blockedList, a process's child list) are
    sequences of process-table indices here, in list order. */
module Phase3State {
  import opened Limits

  /** EMPTY / ACTIVE / WAIT_BLOCK of a table entry. */
  datatype EntryStatus = Empty | Active | WaitBlocked

  /** One entry of semTable. */
  datatype Semaphore = Semaphore(
    status: EntryStatus,
    count: int,
    blocked: seq<int>,   // process-table indices of the waiters, longest-waiting first
    mboxID: int)         // the mailbox that serialises operations on this semaphore

  /** The parts of one procTable entry that the semaphore and child-list
      code reads and writes. `parent` is the parent's index, -1 for none. */
  datatype Proc3 = Proc3(
    status: EntryStatus,
    pid: int,
    parent: int,
    children: seq<int>,  // process-table indices of the children, oldest first
    mboxID: int)         // the private mailbox the process blocks on

  /** semTable and procTable as values. */
  datatype Kernel3 = Kernel3(sems: seq<Semaphore>, procs: seq<Proc3>)

  /** The argument block of a system call (systemArgs). Only integer
      arguments are modelled; pointer arguments are carried as integers and
      never inspected. */
  datatype SysArgs = SysArgs(number: int, arg1: int, arg2: int, arg3: int, arg4: int, arg5: int)

  predicate IsProcIndex(k: int) {
    0 <= k < MAXPROC
  }

  /** A free semaphore has nobody waiting on it; waiters are table entries. */
  predicate SemOk(s: Semaphore) {
    && (s.status == Empty ==> s.blocked == [])
    && (forall j :: 0 <= j < |s.blocked| ==> IsProcIndex(s.blocked[j]))
  }

  /** Parent and children are table entries. */
  predicate Proc3Ok(p: Proc3) {
    && (p.parent == -1 || IsProcIndex(p.parent))
    && (forall j :: 0 <= j < |p.children| ==> IsProcIndex(p.children[j]))
  }

  /** The invariant of the phase 3 tables. */
  predicate Kernel3Ok(k: Kernel3) {
    && |k.sems| == MAXSEMS && |k.procs| == MAXPROC
    && (forall i :: 0 <= i < MAXSEMS ==> SemOk(k.sems[i]))
    && (forall i :: 0 <= i < MAXPROC ==> Proc3Ok(k.procs[i]))
  }

  /** A semaphore entry as start2 leaves it. */
  function FreeSemaphore(): Semaphore {
    Semaphore(Empty, 0, [], 0)
  }

  /** A process entry as start2 leaves it. */
  function FreeProc3(): Proc3 {
    Proc3(Empty, 0, -1, [], 0)
  }

  /** The tables once start2 has cleared them. */
  function InitialKernel3(): (k: Kernel3)
    ensures Kernel3Ok(k)
  {
    Kernel3(seq(MAXSEMS, _ => FreeSemaphore()), seq(MAXPROC, _ => FreeProc3()))
  }

  predicate SemIsFree(s: Semaphore) { s.status == Empty }

  /** `s` with its first occurrence of `x` removed (unchanged when `x` does
      not occur): what unlinking a node from a singly linked list does. */
  function Without(s: seq<int>, x: int): (r: seq<int>)
    ensures x in s ==> |r| == |s| - 1
    ensures x !in s ==> r == s
  {
    if s == [] then []
    else if s[0] == x then s[1..]
    else [s[0]] + Without(s[1..], x)
  }

  /** Without takes away exactly one copy of `x`, if there is one, and
      nothing else. */
  lemma {:induction false} WithoutMultiset(s: seq<int>, x: int)
    ensures multiset(Without(s, x)) == multiset(s) - multiset{x}
  {
    if s != [] {
      assert s == [s[0]] + s[1..];
      if s[0] != x {
        WithoutMultiset(s[1..], x);
      }
    }
  }

  /** Splicing out the first occurrence found at index i is Without. */
  lemma {:induction false} WithoutAt(s: seq<int>, x: int, i: int)
    requires 0 <= i < |s| && s[i] == x && x !in s[..i]
    ensures Without(s, x) == s[..i] + s[i + 1..]
  {
    if i > 0 {
      var t := s[1..];
      assert s[0] in s[..i];
      assert t[..i - 1] == s[1..i];
      assert x !in t[..i - 1] by {
        forall j | 0 <= j < i - 1 ensures t[j] != x {
          assert t[j] == s[..i][j + 1];
        }
      }
      WithoutAt(t, x, i - 1);
      assert t[i..] == s[i + 1..];
      assert s[..i] == [s[0]] + t[..i - 1];
    }
  }

  /** Every element Without keeps was in the list. */
  lemma {:induction false} WithoutSubset(s: seq<int>, x: int)
    ensures forall j :: 0 <= j < |Without(s, x)| ==> Without(s, x)[j] in s
  {
    if s != [] && s[0] != x {
      WithoutSubset(s[1..], x);
      var w := Without(s[1..], x);
      assert Without(s, x) == [s[0]] + w;
      assert forall j :: 0 <= j < |w| ==> w[j] in s;
    }
  }

  /** No element occurs twice. */
  predicate Distinct(s: seq<int>) {
    forall a, b :: 0 <= a < b < |s| ==> s[a] != s[b]
  }

  /** Without removes `x` and nothing else from a list without repetitions. */
  lemma {:induction false} WithoutMembers(s: seq<int>, x: int)
    requires Distinct(s)
    ensures forall y :: y in Without(s, x) <==> y in s && y != x
  {
    if s != [] {
      var t := s[1..];
      assert Distinct(t) by {
        forall a, b | 0 <= a < b < |t| ensures t[a] != t[b] {
          assert t[a] == s[a + 1] && t[b] == s[b + 1];
        }
      }
      WithoutMembers(t, x);
      assert s == [s[0]] + t;
      if s[0] == x {
        assert x !in t by {
          forall j | 0 <= j < |t| ensures t[j] != x {
            assert t[j] == s[j + 1];
          }
        }
        assert Without(s, x) == t;
      } else {
        assert Without(s, x) == [s[0]] + Without(t, x);
      }
    }
  }

  /** Without keeps a list free of repetitions. */
  lemma {:induction false} WithoutDistinct(s: seq<int>, x: int)
    requires Distinct(s)
    ensures Distinct(Without(s, x))
  {
    if s != [] && s[0] != x {
      var t := s[1..];
      assert Distinct(t) by {
        forall a, b | 0 <= a < b < |t| ensures t[a] != t[b] {
          assert t[a] == s[a + 1] && t[b] == s[b + 1];
        }
      }
      WithoutDistinct(t, x);
      WithoutMembers(t, x);
      var w := Without(t, x);
      assert s[0] !in w by {
        forall j | 0 <= j < |t| ensures t[j] != s[0] {
          assert t[j] == s[j + 1];
        }
      }
      var r := [s[0]] + w;
      forall a, b | 0 <= a < b < |r| ensures r[a] != r[b] {
        assert r[b] == w[b - 1];
        if a > 0 {
          assert r[a] == w[a - 1];
        }
      }
    }
  }

  /** Appending a child and unlinking it again gives back the list. */
  lemma {:induction false} AppendThenWithout(s: seq<int>, x: int)
    requires x !in s
    ensures Without(s + [x], x) == s
  {
    assert (s + [x])[|s|] == x;
    assert (s + [x])[..|s|] == s;
    WithoutAt(s + [x], x, |s|);
  }
}
