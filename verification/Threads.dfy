/** Kernel launches: the identifiers of the threads that remain to run. */
module Threads {

  function ThreadIds(n: nat): (ids: set<int>)
    ensures forall i :: i in ids <==> 0 <= i < n
  {
    if n == 0 then {} else ThreadIds(n - 1) + {n - 1}
  }
}
