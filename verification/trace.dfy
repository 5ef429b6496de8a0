/** Running a per-tick step function over a sequence of inputs.

    The visualiser calls its analysers once per animation frame; a run is
    the sequence of frames such a loop produces from a starting state. */
module Trace {

  /** The frames produced by feeding `inputs` to `step`, one per input. */
  function Run<S, X, F>(step: (S, X) -> (S, F), s: S, inputs: seq<X>): (frames: seq<F>)
    ensures |frames| == |inputs|
    ensures |inputs| > 0 ==> frames[0] == step(s, inputs[0]).1
    decreases |inputs|
  {
    if |inputs| == 0 then []
    else
      var next := step(s, inputs[0]);
      [next.1] + Run(step, next.0, inputs[1..])
  }

  /** The state after the first `i` inputs have been consumed. */
  function StateAt<S, X, F>(step: (S, X) -> (S, F), s: S, inputs: seq<X>, i: nat): S
    requires i <= |inputs|
    decreases i
  {
    if i == 0 then s
    else StateAt(step, step(s, inputs[0]).0, inputs[1..], i - 1)
  }

  /** Frame `k` is what the step makes of input `k` in the state reached
      after the first `k` inputs. */
  lemma {:induction false} FrameAt<S, X, F>(step: (S, X) -> (S, F), s: S, inputs: seq<X>, k: nat)
    requires k < |inputs|
    ensures Run(step, s, inputs)[k] == step(StateAt(step, s, inputs, k), inputs[k]).1
    decreases k
  {
    if k > 0 {
      var next := step(s, inputs[0]);
      assert Run(step, s, inputs) == [next.1] + Run(step, next.0, inputs[1..]);
      FrameAt(step, next.0, inputs[1..], k - 1);
      assert inputs[1..][k - 1] == inputs[k];
    }
  }

  /** Consuming one more input moves the state by one step. */
  lemma {:induction false} StateAtNext<S, X, F>(step: (S, X) -> (S, F), s: S, inputs: seq<X>, k: nat)
    requires k < |inputs|
    ensures StateAt(step, s, inputs, k + 1) == step(StateAt(step, s, inputs, k), inputs[k]).0
    decreases k
  {
    if k > 0 {
      var next := step(s, inputs[0]);
      StateAtNext(step, next.0, inputs[1..], k - 1);
      assert inputs[1..][k - 1] == inputs[k];
    }
  }
}
