/**
  Equal inputs counted instead of repeated (`src/game/movement_step.cpp`).
  The encoding is lossless and canonical: each list of inputs has exactly one.
*/
module RunLength {
  datatype MoveKind = Walk | Cart

  /** One fixed step's controls, quantised. */
  datatype Input = Input(kind: MoveKind, forward: int, side: int, run: bool, jump: bool, yaw: int, steer: int)

  datatype Run = Run(input: Input, steps: nat)

  /** The largest 16-bit count. */
  const MAX_STEPS: nat := 65535

  function AppendStep(runs: seq<Run>, input: Input): seq<Run> {
    if runs != [] && !input.jump && !Last(runs).input.jump && Last(runs).input == input && Last(runs).steps < MAX_STEPS
    then runs[|runs| - 1 := Run(input, Last(runs).steps + 1)]
    else runs + [Run(input, 1)]
  }

  function Last(runs: seq<Run>): Run
    requires runs != []
  {
    runs[|runs| - 1]
  }

  function Repeat(input: Input, steps: nat): seq<Input> {
    seq(steps, _ => input)
  }

  /** The steps the runs stand for, in order. */
  function Expand(runs: seq<Run>): seq<Input> {
    if runs == [] then [] else Expand(runs[..|runs| - 1]) + Repeat(Last(runs).input, Last(runs).steps)
  }

  /** As few runs as there can be: a hop stands alone, and only a full run is followed by one like it. */
  predicate IsRuns(runs: seq<Run>) {
    && (forall k | 0 <= k < |runs| :: 1 <= runs[k].steps <= MAX_STEPS && (runs[k].input.jump ==> runs[k].steps == 1))
    && (forall k | 0 < k < |runs| ::
          runs[k].input == runs[k - 1].input && !runs[k].input.jump ==> runs[k - 1].steps == MAX_STEPS)
  }

  function Encode(inputs: seq<Input>): seq<Run> {
    if inputs == [] then [] else AppendStep(Encode(inputs[..|inputs| - 1]), inputs[|inputs| - 1])
  }

  lemma ExpandSnoc(runs: seq<Run>, last: Run)
    ensures Expand(runs + [last]) == Expand(runs) + Repeat(last.input, last.steps)
  {
    assert (runs + [last])[..|runs|] == runs;
  }

  lemma AppendExpands(runs: seq<Run>, input: Input)
    ensures Expand(AppendStep(runs, input)) == Expand(runs) + [input]
  {
    if |AppendStep(runs, input)| == |runs| {
      var init, last := runs[..|runs| - 1], Last(runs);
      assert runs == init + [last] && AppendStep(runs, input) == init + [Run(input, last.steps + 1)];
      ExpandSnoc(init, last);
      ExpandSnoc(init, Run(input, last.steps + 1));
      assert Repeat(input, last.steps + 1) == Repeat(input, last.steps) + [input];
    } else {
      ExpandSnoc(runs, Run(input, 1));
    }
  }

  lemma AppendKeepsRuns(runs: seq<Run>, input: Input)
    requires IsRuns(runs)
    ensures IsRuns(AppendStep(runs, input)) && AppendStep(runs, input) != []
  {}

  lemma {:induction false} EncodeLossless(inputs: seq<Input>)
    ensures Expand(Encode(inputs)) == inputs && IsRuns(Encode(inputs))
  {
    if inputs != [] {
      hide AppendStep, Expand, IsRuns;
      var n := |inputs| - 1;
      EncodeLossless(inputs[..n]);
      AppendExpands(Encode(inputs[..n]), inputs[n]);
      AppendKeepsRuns(Encode(inputs[..n]), inputs[n]);
    }
  }

  /** A canonical encoding is the one its own steps encode to. */
  lemma {:induction false} EncodeCanonical(runs: seq<Run>)
    requires IsRuns(runs)
    ensures Encode(Expand(runs)) == runs
    decreases |runs|, if runs == [] then 0 else Last(runs).steps
  {
    if runs != [] {
      var init, last := runs[..|runs| - 1], Last(runs);
      assert runs == init + [last];
      var before := if last.steps == 1 then init else init + [Run(last.input, last.steps - 1)];
      assert AppendStep(before, last.input) == runs;
      AppendExpands(before, last.input);
      EncodeCanonical(before);
      assert Expand(runs)[..|Expand(runs)| - 1] == Expand(before);
    }
  }

  /** Two canonical encodings of the same steps are the same. */
  lemma RunsAreUnique(a: seq<Run>, b: seq<Run>)
    requires IsRuns(a) && IsRuns(b) && Expand(a) == Expand(b)
    ensures a == b
  {
    EncodeCanonical(a);
    EncodeCanonical(b);
  }

  // ---- Playing steps and playing runs ----

  function Play<S>(step: (S, Input) -> S, s: S, inputs: seq<Input>): S {
    if inputs == [] then s else step(Play(step, s, inputs[..|inputs| - 1]), inputs[|inputs| - 1])
  }

  /** As a receiver plays a batch: each run its number of times. */
  function PlayRuns<S>(step: (S, Input) -> S, s: S, runs: seq<Run>): S {
    if runs == [] then s
    else PlayTimes(step, PlayRuns(step, s, runs[..|runs| - 1]), Last(runs).input, Last(runs).steps)
  }

  function PlayTimes<S>(step: (S, Input) -> S, s: S, input: Input, times: nat): S {
    if times == 0 then s else step(PlayTimes(step, s, input, times - 1), input)
  }

  lemma {:induction false} PlayOn<S>(step: (S, Input) -> S, s: S, inputs: seq<Input>, input: Input, times: nat)
    ensures Play(step, s, inputs + Repeat(input, times)) == PlayTimes(step, Play(step, s, inputs), input, times)
  {
    if times == 0 {
      assert inputs + Repeat(input, 0) == inputs;
    } else {
      PlayOn(step, s, inputs, input, times - 1);
      var all := inputs + Repeat(input, times);
      assert all[..|all| - 1] == inputs + Repeat(input, times - 1) && all[|all| - 1] == input;
    }
  }

  /** Whatever a step does, playing the runs does what playing the steps they stand for does. */
  lemma {:induction false} PlayRunsIsPlay<S>(step: (S, Input) -> S, s: S, runs: seq<Run>)
    ensures PlayRuns(step, s, runs) == Play(step, s, Expand(runs))
  {
    if runs != [] {
      PlayRunsIsPlay(step, s, runs[..|runs| - 1]);
      PlayOn(step, s, Expand(runs[..|runs| - 1]), Last(runs).input, Last(runs).steps);
    }
  }
}
