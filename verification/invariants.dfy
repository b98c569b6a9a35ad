/** The invariants every state of the presentation loop keeps. */
module Invariants {
  import opened Controller

  /**
   * One frame keeps the slide index within the deck, the cooldown counter
   * within `0 .. Delay` and zero exactly when no cooldown runs, and the
   * stroke cursor in step with the annotation lists.
   */
  lemma StepPreservesValid(n: int, s: State, f: Frame)
    requires Valid(n, s)
    ensures Valid(n, Step(n, s, f))
  {
  }

  lemma {:induction false} RunPreservesValid(n: int, s: State, frames: seq<Frame>)
    requires Valid(n, s)
    ensures Valid(n, Run(n, s, frames))
    decreases |frames|
  {
    if |frames| > 0 {
      StepPreservesValid(n, s, frames[0]);
      RunPreservesValid(n, Step(n, s, frames[0]), frames[1..]);
    }
  }

  /**
   * With at least one slide, every state the loop reaches from its initial
   * values is valid: in particular `0 <= imgNumber < n`.
   */
  lemma ReachableValid(n: int, frames: seq<Frame>)
    requires n >= 1
    ensures Valid(n, Run(n, Start(), frames))
  {
    RunPreservesValid(n, Start(), frames);
  }

  /** Running two stretches of frames is running their concatenation. */
  lemma {:induction false} RunConcat(n: int, s: State, a: seq<Frame>, b: seq<Frame>)
    requires CursorOk(s)
    ensures Run(n, s, a + b) == Run(n, Run(n, s, a), b)
    decreases |a|
  {
    if |a| > 0 {
      assert (a + b)[0] == a[0];
      assert (a + b)[1..] == a[1..] + b;
      RunConcat(n, Step(n, s, a[0]), a[1..], b);
    } else {
      assert a + b == b;
    }
  }
}
