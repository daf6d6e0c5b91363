/**
 * The worker-pool shape shared by every stage: a job list used as a stack, popped from
 * its end (`Vec::pop`) one job at a time. Run sequentially, draining the stack applies the
 * per-job action to the jobs from the last one to the first.
 */
module WorkerPool {

  function Min(a: nat, b: nat): (r: nat)
    ensures r <= a && r <= b && (r == a || r == b)
  {
    if a <= b then a else b
  }

  /** No Ctrl-C arrives at any of the cancel checks `0..n`. */
  predicate Quiet(ctrlC: nat -> bool, n: nat) {
    forall k: nat :: k <= n ==> !ctrlC(k)
  }

  /**
   * How far a cancellable pool of at most `threadMax` workers gets through `n` jobs: it
   * stops short only when the cancel flag ends up set, does nothing when the flag was set
   * before it started, and, with a worker and no Ctrl-C, processes every job.
   */
  predicate PoolProgress(threadMax: nat, n: nat, processed: nat, cancelledBefore: bool, cancelledAfter: bool,
                         ctrlC: nat -> bool) {
    && processed <= n
    && (threadMax > 0 && processed < n ==> cancelledAfter)
    && (cancelledBefore ==> processed == 0)
    && (threadMax > 0 && !cancelledBefore && Quiet(ctrlC, n) ==> processed == n)
  }

  /** The state reached by popping every job of `jobs` and applying `step` to each. */
  function Drain<S, J>(step: (S, J) -> S, s: S, jobs: seq<J>): S
    decreases |jobs|
  {
    if |jobs| == 0 then s else Drain(step, step(s, jobs[|jobs| - 1]), jobs[..|jobs| - 1])
  }

  /**
   * The job at the bottom of the stack is the last one popped: after the first `n` pops
   * the jobs done are exactly `jobs[|jobs| - n..]`, so one more pop extends that suffix
   * at its front.
   */
  lemma {:induction false} DrainPushFront<S, J>(step: (S, J) -> S, s: S, x: J, jobs: seq<J>)
    ensures Drain(step, s, [x] + jobs) == step(Drain(step, s, jobs), x)
    decreases |jobs|
  {
    if |jobs| == 0 {
      assert [x] + jobs == [x];
      assert [x][..0] == [];
    } else {
      var rest := jobs[..|jobs| - 1];
      assert ([x] + jobs)[..|jobs|] == [x] + rest;
      DrainPushFront(step, step(s, jobs[|jobs| - 1]), x, rest);
    }
  }

  /** One more pop from a stack that still holds `jobs[..|jobs| - n]`. */
  lemma DrainOneMore<S, J>(step: (S, J) -> S, s: S, jobs: seq<J>, n: nat)
    requires n < |jobs|
    ensures Drain(step, s, jobs[|jobs| - n - 1..]) == step(Drain(step, s, jobs[|jobs| - n..]), jobs[|jobs| - n - 1])
  {
    assert jobs[|jobs| - n - 1..] == [jobs[|jobs| - n - 1]] + jobs[|jobs| - n..];
    DrainPushFront(step, s, jobs[|jobs| - n - 1], jobs[|jobs| - n..]);
  }
}
