/** The animation progress counter. The source keeps a float fraction and adds 0.001 per
    frame; here it is an integer count of thousandths, so 1000 stands for the end of the
    path. */
module Progress {

  /** Steps per traversal: one step is 0.001 of the path. */
  const Resolution: nat := 1000

  /** One frame's update: add one step, and go back to 0 once the fraction exceeds 1. */
  function Advance(p: nat): (r: nat)
    ensures r <= Resolution
    ensures p <= Resolution ==> r == (p + 1) % (Resolution + 1)
  {
    if p + 1 > Resolution then 0 else p + 1
  }

  /** `n` consecutive frames. */
  function AdvanceN(p: nat, n: nat): nat
    decreases n
  {
    if n == 0 then p else AdvanceN(Advance(p), n - 1)
  }

  /** From any in-range value, `n` frames move the counter `n` places round a cycle of
      Resolution + 1 values. */
  lemma {:induction false} AdvanceNCycle(p: nat, n: nat)
    requires p <= Resolution
    ensures AdvanceN(p, n) == (p + n) % (Resolution + 1)
    ensures AdvanceN(p, n) <= Resolution
    decreases n
  {
    if n > 0 {
      AdvanceNCycle(Advance(p), n - 1);
      if p == Resolution {
        assert (Resolution + n) % (Resolution + 1) == (n - 1) % (Resolution + 1);
      }
    }
  }

  /** Started from 0, the counter is back at 0 after exactly Resolution + 1 frames and not
      before. */
  lemma FullLoopReturnsToStart(n: nat)
    requires 0 < n <= Resolution + 1
    ensures AdvanceN(0, n) == 0 <==> n == Resolution + 1
  {
    AdvanceNCycle(0, n);
  }
}
