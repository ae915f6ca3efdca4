/** is_process_running: whether a process of the given name is in the
    current process list, names compared without regard to letter case. The
    process list is a snapshot passed in as the sequence of process names. */
module Processes {
  import opened Text

  /** Some process in the list has the name, ignoring case. */
  predicate Running(procs: seq<string>, name: string) {
    exists k :: 0 <= k < |procs| && Lower(procs[k]) == Lower(name)
  }

  /** The scan over the process list, stopping at the first match. */
  method IsProcessRunning(procs: seq<string>, name: string) returns (found: bool)
    ensures found <==> Running(procs, name)
  {
    var target := Lower(name);
    var i := 0;
    while i < |procs|
      invariant 0 <= i <= |procs|
      invariant forall k :: 0 <= k < i ==> Lower(procs[k]) != target
    {
      if Lower(procs[i]) == target {
        return true;
      }
      i := i + 1;
    }
    return false;
  }

  /** Only the lower-cased name matters. */
  lemma RunningIgnoresCase(procs: seq<string>, name: string)
    ensures Running(procs, name) <==> Running(procs, Lower(name))
  {
    LowerIdempotent(name);
  }
}
