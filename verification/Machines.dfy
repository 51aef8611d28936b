/** Runs of a deterministic machine that takes an input and makes outputs at each step. */
module Machines {
  datatype Stepped<S, O> = Stepped(state: S, outputs: seq<O>)

  function Run<S, I, O>(step: (S, I) -> Stepped<S, O>, s: S, inputs: seq<I>): Stepped<S, O>
    decreases |inputs|
  {
    if inputs == [] then Stepped(s, [])
    else
      var first := step(s, inputs[0]);
      var rest := Run(step, first.state, inputs[1..]);
      Stepped(rest.state, first.outputs + rest.outputs)
  }

  /** Cutting the inputs anywhere gives the same state and the same outputs. */
  lemma {:induction false} RunAppend<S, I, O>(step: (S, I) -> Stepped<S, O>, s: S, a: seq<I>, b: seq<I>)
    ensures var first := Run(step, s, a);
            var second := Run(step, first.state, b);
            Run(step, s, a + b) == Stepped(second.state, first.outputs + second.outputs)
    decreases |a|
  {
    if a == [] {
      assert a + b == b;
    } else {
      assert (a + b)[1..] == a[1..] + b;
      RunAppend(step, step(s, a[0]).state, a[1..], b);
    }
  }

  lemma RunOne<S, I, O>(step: (S, I) -> Stepped<S, O>, s: S, input: I)
    ensures Run(step, s, [input]) == step(s, input)
  {
    assert [input][1..] == [];
  }

  lemma RunTwo<S, I, O>(step: (S, I) -> Stepped<S, O>, s: S, first: I, second: I)
    ensures Run(step, s, [first, second]).state == step(step(s, first).state, second).state
  {
    assert [first, second][1..] == [second];
    RunOne(step, step(s, first).state, second);
  }
}
