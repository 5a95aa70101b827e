/** The two views of the generated harness joined: the steps that the executor takes of a testcase text, as
    inputs of the process whose state is checkpointed and restored. */
module HarnessRun {
  import opened Arithmetic
  import opened FrameCases
  import opened RecordText
  import opened FrameText
  import opened ScanRun
  import opened Executor
  import opened HarnessState

  /** The first n steps as inputs of the process. */
  function InputsOf<N, V>(steps: seq<Step<N, V>>, n: nat): (r: seq<Input<map<N, V>>>)
    requires n <= |steps| && forall i :: 0 <= i < |steps| ==> steps[i].dt >= 0
    ensures |r| == n
  {
    if n == 0 then [] else InputsOf(steps, n - 1) + [Input(steps[n - 1].values, steps[n - 1].dt)]
  }

  lemma {:induction false} StepCounts<I, F, S>(code: Code<I, F, S>, s: State<I>, i: Input<F>)
    ensures Stepped(code, s, i).harness.vclock == (s.harness.vclock + i.dt) % WORD
    ensures Stepped(code, s, i).harness.frameIndex == (s.harness.frameIndex + 1) % WORD
  {
  }

  lemma {:induction false} LastStep<I, F, S>(code: Code<I, F, S>, s: State<I>, inputs: seq<Input<F>>, i: Input<F>)
    ensures Steps(code, s, inputs + [i]) == Stepped(code, Steps(code, s, inputs), i)
  {
    assert (inputs + [i])[..|inputs|] == inputs;
  }

  /** The process counts time and frames as the executor does. */
  lemma {:induction false} CountersAgree<I, N, V, S>(code: Code<I, map<N, V>, S>, s: State<I>, steps: seq<Step<N, V>>, n: nat)
    requires n <= |steps| < WORD && forall i :: 0 <= i < |steps| ==> steps[i].dt >= 0
    requires s.harness.vclock == 0 && s.harness.frameIndex == 0
    ensures var h := Steps(code, s, InputsOf(steps, n)).harness;
            h.vclock == Clock(steps, n) && h.frameIndex == n
  {
    if n > 0 {
      var last := Input(steps[n - 1].values, steps[n - 1].dt);
      var before := InputsOf(steps, n - 1);
      CountersAgree(code, s, steps, n - 1);
      LastStep(code, s, before, last);
      StepCounts(code, Steps(code, s, before), last);
      SmallWrap(n);
    }
  }

  /** What executing the canonical text of a testcase leaves in a process: the frame count, the sum of delta_t,
      and, after a checkpoint at any frame and a restore into any state, the same captured state. */
  lemma {:induction false} CanonicalInProcess<I(!new), S(!new)>(d: Device, abi: Abi, tc: TestCase<Text, Text>,
      code: Code<I, map<Text, Text>, S>, regions: seq<HarnessState.Region>, cold: State<I>, other: State<I>, k: nat)
    requires Ready(d, abi, tc) && d.target.period >= 0 && k <= |tc.frames|
    requires HarnessState.Deterministic(code, regions) && InMemory(regions, |cold.mem|) && |other.mem| == |cold.mem|
    requires cold.harness.vclock == 0 && cold.harness.frameIndex == 0
    ensures var exit := Executed(d, CanonicalText(abi, tc, true));
            && exit.Finished?
            && |exit.steps| == |tc.frames|
            && (forall i :: 0 <= i < |exit.steps| ==> exit.steps[i].dt >= 0)
            && var inputs := InputsOf(exit.steps, |tc.frames|);
               var end := Steps(code, cold, inputs);
            && end.harness.frameIndex == |tc.frames|
            && end.harness.vclock == Elapsed(exit.steps, |tc.frames|) % WORD
            && |Steps(code, cold, inputs[..k]).mem| == |cold.mem|
            && var blob := Checkpointed(regions, Steps(code, cold, inputs[..k]));
               Same(regions, Steps(code, Restored(regions, other, blob), inputs[k..]), end)
  {
    CanonicalExecutes(d, abi, tc);
    var steps := StepsOf(d.target, tc.frames, |tc.frames|);
    forall i | 0 <= i < |steps| ensures steps[i].dt >= 0 {
      FrameKept(abi, tc, i);
    }
    ProcessReplays(code, regions, cold, other, steps, k);
  }

  lemma {:induction false} ProcessReplays<I(!new), N(!new), V(!new), S(!new)>(code: Code<I, map<N, V>, S>, regions: seq<HarnessState.Region>,
      cold: State<I>, other: State<I>, steps: seq<Step<N, V>>, k: nat)
    requires k <= |steps| < WORD && forall i :: 0 <= i < |steps| ==> steps[i].dt >= 0
    requires HarnessState.Deterministic(code, regions) && InMemory(regions, |cold.mem|) && |other.mem| == |cold.mem|
    requires cold.harness.vclock == 0 && cold.harness.frameIndex == 0
    ensures var inputs := InputsOf(steps, |steps|);
            var end := Steps(code, cold, inputs);
            && end.harness.frameIndex == |steps|
            && end.harness.vclock == Elapsed(steps, |steps|) % WORD
            && |Steps(code, cold, inputs[..k]).mem| == |cold.mem|
            && var blob := Checkpointed(regions, Steps(code, cold, inputs[..k]));
               Same(regions, Steps(code, Restored(regions, other, blob), inputs[k..]), end)
  {
    var inputs := InputsOf(steps, |steps|);
    CountersAgree(code, cold, steps, |steps|);
    ClockIsElapsed(steps, |steps|);
    RestoreIsReplay(code, regions, cold, other, inputs[..k], inputs[k..]);
    assert inputs[..k] + inputs[k..] == inputs;
  }
}
