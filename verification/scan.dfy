/** The first-fit scan used by every fixed table of the kernel: mailbox
    creation, slot allocation and semaphore creation all take the lowest
    free index, or report that there is none. */
module Scan {
  /** The lowest index whose element satisfies `p`, or -1 when none does. */
  function FirstWhere<T>(s: seq<T>, p: T -> bool): (r: int)
    ensures -1 <= r < |s|
    ensures 0 <= r ==> p(s[r]) && forall j :: 0 <= j < r ==> !p(s[j])
    ensures r == -1 <==> forall j :: 0 <= j < |s| ==> !p(s[j])
  {
    if s == [] then -1
    else if p(s[0]) then 0
    else
      var k := FirstWhere(s[1..], p);
      if k == -1 then -1 else k + 1
  }

  /** A scan that stopped at `i` because `s[i]` is the first match agrees with FirstWhere. */
  lemma FirstWhereAt<T>(s: seq<T>, p: T -> bool, i: int)
    requires 0 <= i < |s| && p(s[i])
    requires forall j :: 0 <= j < i ==> !p(s[j])
    ensures FirstWhere(s, p) == i
  {
  }
}
