/** humane_rework/src/runner.rs: running the steps of a test file in order
    against the capabilities of the universe, inlining referenced files.

    The sandbox (`Civilization`) is a value of type `S` threaded through
    every capability: a capability receives it and hands back the sandbox
    it leaves behind, as the source's `&mut Civilization` is handed from
    step to step. What a capability does is not part of this model: each
    is a function value in its registry. */
module Runner {
  import opened Wrappers
  import opened JsonValues
  import opened Segments
  import opened Binding
  import opened Registry
  import opened Steps
  import Errors

  /** `HumaneInstruction::run`, `HumaneRetriever::run` and
      `HumaneAssertion::run`. */
  type InstructionRun<!S> = (SegmentArgs, S) -> (Result<(), Errors.StepError>, S)
  type RetrieverRun<!S> = (SegmentArgs, S) -> (Result<Json, Errors.StepError>, S)
  type AssertionRun<!S> = (Json, SegmentArgs, S) -> (Result<(), Errors.StepError>, S)

  /** `Universe`: the test files keyed by their normalised path, the three
      registries and the placeholder context. `resolve` is
      `PathBuf::from(dir).join(other).normalize()`, `closest` is
      `find_best_similarity` over the known paths, `yaml` and `argsYaml`
      are `serde_yaml::to_string`; none of them is part of this model. */
  datatype Universe<!S> = Universe(
    tests: map<string, TestFile>,
    instructions: Registry<InstructionRun<S>>,
    retrievers: Registry<RetrieverRun<S>>,
    assertions: Registry<AssertionRun<S>>,
    ctx: Params,
    resolve: (string, string) -> string,
    closest: (string, set<string>) -> Option<string>,
    yaml: Json -> string,
    argsYaml: map<string, Json> -> string)

  /** One step after it ran, what it returned, and the sandbox after it. */
  datatype StepRun<S> = StepRun(step: TestStep, result: Result<(), TestError>, sandbox: S)

  /** A list of steps after they ran, what the run returned, and the
      sandbox after it. */
  datatype StepsRun<S> = StepsRun(steps: seq<TestStep>, result: Result<(), TestError>, sandbox: S)

  /** References are followed without a cycle check; a cycle exhausts the
      stack. `fuel` bounds the depth of references, and running out of it is
      that crash. */
  const OutOfFuel := "references nested too deeply"

  const NothingFound := "<nothing found>"

  function OrNothing(closest: Option<string>): string
  {
    if closest.Some? then closest.value else NothingFound
  }

  /** `b` is `a` after running: the same variant with the same inputs, only
      its state and what it received changed. */
  predicate SameStep(a: TestStep, b: TestStep)
  {
    match a
    case Ref(other, orig, _, _) => b.Ref? && b.otherFile == other && b.orig == orig
    case Instruction(p, args, orig, _) =>
      b.Instruction? && b.step == p && b.args == args && b.orig == orig
    case Assertion(rp, ap, args, orig, _) =>
      b.Assertion? && b.retrieval == rp && b.assertion == ap && b.args == args && b.orig == orig
    case Snapshot(p, _, args, orig, _) =>
      b.Snapshot? && b.snapshot == p && b.args == args && b.orig == orig
  }

  /** `mark_and_return_step_error`: the step fails, and its error names the
      step as it was before it ran. */
  function Fail<S>(u: Universe<S>, step: TestStep, e: Errors.StepError, s: S): (r: StepRun<S>)
    ensures r.step == step.(state := Failed) && r.sandbox == s
    ensures r.result.Err? && r.result.error.err == e
    ensures r.result.error.step == step && r.result.error.argStr == ArgsPretty(step, u.argsYaml)
  {
    StepRun(step.(state := Failed), Err(TestError(e, step, ArgsPretty(step, u.argsYaml))), s)
  }

  /** The end of a step whose capability returned `res`. */
  function Finish<S>(u: Universe<S>, step: TestStep, res: Result<(), Errors.StepError>, s: S): StepRun<S>
  {
    match res
    case Ok(_) => StepRun(step.(state := Passed), Ok(()), s)
    case Err(e) => Fail(u, step, e, s)
    case Panic(m) => StepRun(step, Panic(m), s)
  }

  /** Binding a step to the key it was found under, with the universe's
      context; a binding error is an input error of the step. */
  function BindStep<S>(u: Universe<S>, key: Pattern, p: Pattern, args: map<string, Json>)
    : Result<SegmentArgs, Errors.StepError>
  {
    BuildSpec(key, p, args, Some(u.ctx)).MapError((e: Errors.InputError) => Errors.External(e))
  }

  /** Looking up, binding and running an instruction. */
  function Instruct<S>(u: Universe<S>, p: Pattern, args: map<string, Json>, s: S)
    : (Result<(), Errors.StepError>, S)
  {
    match GetKeyValue(u.instructions, p)
    case None => (Err(Errors.External(Errors.NonexistentStep)), s)
    case Some(entry) =>
      match BindStep(u, entry.0, p, args)
      case Ok(a) => entry.1(a, s)
      case Err(e) => (Err(e), s)
      case Panic(m) => (Panic(m), s)
  }

  /** Looking up, binding and running a retriever. */
  function Retrieve<S>(u: Universe<S>, p: Pattern, args: map<string, Json>, s: S)
    : (Result<Json, Errors.StepError>, S)
  {
    match GetKeyValue(u.retrievers, p)
    case None => (Err(Errors.External(Errors.NonexistentStep)), s)
    case Some(entry) =>
      match BindStep(u, entry.0, p, args)
      case Ok(a) => entry.1(a, s)
      case Err(e) => (Err(e), s)
      case Panic(m) => (Panic(m), s)
  }

  /** Looking up, binding and running an assertion on a retrieved value. */
  function Check<S>(u: Universe<S>, value: Json, p: Pattern, args: map<string, Json>, s: S)
    : (Result<(), Errors.StepError>, S)
  {
    match GetKeyValue(u.assertions, p)
    case None => (Err(Errors.External(Errors.NonexistentStep)), s)
    case Some(entry) =>
      match BindStep(u, entry.0, p, args)
      case Ok(a) => entry.1(value, a, s)
      case Err(e) => (Err(e), s)
      case Panic(m) => (Panic(m), s)
  }

  /** The text a snapshot keeps: a string verbatim, any other value as
      YAML. */
  function SnapshotText(yaml: Json -> string, v: Json): (r: string)
    ensures v.Str? ==> r == v.s
    ensures !v.Str? ==> r == yaml(v)
  {
    match v
    case Str(t) => t
    case _ => yaml(v)
  }

  /** The body of the loop of `run_humane_steps` for an instruction, an
      assertion or a snapshot. */
  function ExecuteLeaf<S>(u: Universe<S>, step: TestStep, s: S): (r: StepRun<S>)
    requires !step.Ref?
    ensures SameStep(step, r.step)
    ensures r.result.Ok? ==> r.step.state == Passed
    ensures r.result.Err? ==> r.step.state == Failed
    ensures r.result.Err? ==> r.result.error.step == step
                              && r.result.error.argStr == ArgsPretty(step, u.argsYaml)
  {
    match step
    case Instruction(p, args, _, _) =>
      var (res, s1) := Instruct(u, p, args, s);
      Finish(u, step, res, s1)
    case Assertion(rp, ap, args, _, _) =>
      var (got, s1) := Retrieve(u, rp, args, s);
      (match got
       case Ok(v) =>
         var (res, s2) := Check(u, v, ap, args, s1);
         Finish(u, step, res, s2)
       case Err(e) => Fail(u, step, e, s1)
       case Panic(m) => StepRun(step, Panic(m), s1))
    case Snapshot(p, _, args, orig, _) =>
      var (got, s1) := Retrieve(u, p, args, s);
      (match got
       case Ok(v) => StepRun(Snapshot(p, Some(SnapshotText(u.yaml, v)), args, orig, Passed), Ok(()), s1)
       case Err(e) => Fail(u, step, e, s1)
       case Panic(m) => StepRun(step, Panic(m), s1))
  }

  /** A pattern no capability answers to fails the step with
      `NonexistentStep` before anything runs. */
  lemma MissingCapability<S>(u: Universe<S>, step: TestStep, s: S)
    requires (step.Instruction? && !ContainsKey(u.instructions, step.step))
             || (step.Assertion? && !ContainsKey(u.retrievers, step.retrieval))
             || (step.Snapshot? && !ContainsKey(u.retrievers, step.snapshot))
    ensures ExecuteLeaf(u, step, s) == Fail(u, step, Errors.External(Errors.NonexistentStep), s)
  {
  }

  /** An assertion runs its retriever before it looks the assertion up:
      a missing assertion fails the step after the retriever has acted on
      the sandbox, and a found one is bound from the same arguments and
      checks the retrieved value. */
  lemma RetrieverRunsFirst<S>(u: Universe<S>, step: TestStep, s: S)
    requires step.Assertion? && Retrieve(u, step.retrieval, step.args, s).0.Ok?
    ensures var (v, s1) := Retrieve(u, step.retrieval, step.args, s);
            var (res, s2) := Check(u, v.value, step.assertion, step.args, s1);
            (!ContainsKey(u.assertions, step.assertion) ==>
               ExecuteLeaf(u, step, s) == Fail(u, step, Errors.External(Errors.NonexistentStep), s1))
            && ExecuteLeaf(u, step, s).sandbox == s2
            && (ExecuteLeaf(u, step, s).result.Ok? <==> res.Ok?)
  {
  }

  /** A snapshot whose retriever succeeds passes and keeps the retrieved
      text. */
  lemma SnapshotKeepsText<S>(u: Universe<S>, step: TestStep, s: S)
    requires step.Snapshot? && Retrieve(u, step.snapshot, step.args, s).0.Ok?
    ensures var (v, s1) := Retrieve(u, step.snapshot, step.args, s);
            var r := ExecuteLeaf(u, step, s);
            r.result == Ok(()) && r.sandbox == s1 && r.step.state == Passed
            && r.step.snapshotContent == Some(SnapshotText(u.yaml, v.value))
  {
  }

  /** The body of the loop of `run_humane_steps` for any step (the
      reference definition). A reference runs a fresh copy of the steps of
      the file it names, from that file's directory, on the same sandbox. */
  function ExecuteStep<S>(u: Universe<S>, dir: string, step: TestStep, s: S, fuel: nat): (r: StepRun<S>)
    ensures SameStep(step, r.step)
    ensures r.result.Ok? ==> r.step.state == Passed
    ensures r.result.Err? ==> r.step.state == Failed
    decreases fuel, 0
  {
    if !step.Ref? then ExecuteLeaf(u, step, s)
    else
      var target := u.resolve(dir, step.otherFile);
      if target !in u.tests then
        Fail(u, step, Errors.External(Errors.InvalidRef(target, OrNothing(u.closest(target, u.tests.Keys)))), s)
      else if fuel == 0 then StepRun(step, Panic(OutOfFuel), s)
      else
        var file := u.tests[target];
        var inner := RunFrom(u, file.fileDirectory, file.steps, 0, s, fuel - 1);
        StepRun(step.(hydratedSteps := Some(inner.steps),
                      state := if inner.result.Ok? then Passed else Failed),
                inner.result, inner.sandbox)
  }

  /** `run_humane_steps` from step `i` on (the reference definition): the
      steps before `i` have run. The first step that does not succeed ends
      the run with its result. */
  function RunFrom<S>(u: Universe<S>, dir: string, steps: seq<TestStep>, i: nat, s: S, fuel: nat)
    : StepsRun<S>
    requires i <= |steps|
    decreases fuel, |steps| - i + 1
  {
    if i == |steps| then StepsRun(steps, Ok(()), s)
    else
      var x := ExecuteStep(u, dir, steps[i], s, fuel);
      var next := steps[i := x.step];
      if x.result.Ok? then RunFrom(u, dir, next, i + 1, x.sandbox, fuel)
      else StepsRun(next, x.result, x.sandbox)
  }

  /** `run_humane_steps`: the loop over the steps, each updated in place. */
  method RunSteps<S>(u: Universe<S>, dir: string, steps: seq<TestStep>, s: S, fuel: nat)
    returns (out: seq<TestStep>, result: Result<(), TestError>, sandbox: S)
    ensures StepsRun(out, result, sandbox) == RunFrom(u, dir, steps, 0, s, fuel)
    decreases fuel, 1
  {
    out, sandbox := steps, s;
    var i := 0;
    while i < |out|
      invariant i <= |out| == |steps|
      invariant RunFrom(u, dir, out, i, sandbox, fuel) == RunFrom(u, dir, steps, 0, s, fuel)
      decreases |out| - i
    {
      var cur := out[i];
      var next: TestStep, res: Result<(), TestError>;
      if cur.Ref? {
        var target := u.resolve(dir, cur.otherFile);
        if target !in u.tests {
          var closest := u.closest(target, u.tests.Keys);
          var x := Fail(u, cur, Errors.External(Errors.InvalidRef(target, OrNothing(closest))), sandbox);
          next, res := x.step, x.result;
        } else if fuel == 0 {
          next, res := cur, Panic(OutOfFuel);
        } else {
          var file := u.tests[target];
          var hydrated, innerResult, after := RunSteps(u, file.fileDirectory, file.steps, sandbox, fuel - 1);
          next := cur.(hydratedSteps := Some(hydrated),
                       state := if innerResult.Ok? then Passed else Failed);
          res, sandbox := innerResult, after;
        }
      } else {
        var x := ExecuteLeaf(u, cur, sandbox);
        next, res, sandbox := x.step, x.result, x.sandbox;
      }
      out := out[i := next];
      if !res.Ok? {
        result := res;
        return;
      }
      i := i + 1;
    }
    result := Ok(());
  }

  /** `run_humane_experiment`: the steps of a file run on the given sandbox,
      and the sandbox is shut down only when every step succeeded (the `?`
      returns before `shutdown` otherwise). */
  method RunExperiment<S>(u: Universe<S>, input: TestFile, start: S, shutdown: S -> S, fuel: nat)
    returns (file: TestFile, result: Result<(), TestError>, sandbox: S)
    ensures var run := RunFrom(u, input.fileDirectory, input.steps, 0, start, fuel);
            file == input.(steps := run.steps) && result == run.result
            && sandbox == (if run.result.Ok? then shutdown(run.sandbox) else run.sandbox)
  {
    var steps, after;
    steps, result, after := RunSteps(u, input.fileDirectory, input.steps, start, fuel);
    file := input.(steps := steps);
    if !result.Ok? {
      return file, result, after;
    }
    sandbox := shutdown(after);
  }

  // ---- what a run does to the steps ----

  /** The run of `steps` from `i` stopped at step `k`: the steps from `i`
      to `k` passed, and the steps after `k` were never touched. */
  predicate StoppedAt(steps: seq<TestStep>, out: seq<TestStep>, i: nat, k: nat)
  {
    i <= k < |steps| && |out| == |steps|
    && (forall j :: i <= j < k ==> out[j].state == Passed)
    && (forall j :: k < j < |steps| ==> out[j] == steps[j])
  }

  /** A run keeps the steps before `i`, and every step keeps its variant
      and its inputs. */
  lemma {:induction false} RunFromKeeps<S>(u: Universe<S>, dir: string, steps: seq<TestStep>, i: nat,
                                           s: S, fuel: nat)
    requires i <= |steps|
    ensures var r := RunFrom(u, dir, steps, i, s, fuel);
            |r.steps| == |steps|
            && (forall j :: 0 <= j < i ==> r.steps[j] == steps[j])
            && (forall j :: i <= j < |steps| ==> SameStep(steps[j], r.steps[j]))
    decreases |steps| - i
  {
    if i < |steps| {
      var x := ExecuteStep(u, dir, steps[i], s, fuel);
      if x.result.Ok? {
        RunFromKeeps(u, dir, steps[i := x.step], i + 1, x.sandbox, fuel);
      }
    }
  }

  /** A run that succeeds passed every step from `i` on. */
  lemma {:induction false} RunFromPasses<S>(u: Universe<S>, dir: string, steps: seq<TestStep>, i: nat,
                                            s: S, fuel: nat)
    requires i <= |steps|
    requires RunFrom(u, dir, steps, i, s, fuel).result.Ok?
    ensures var r := RunFrom(u, dir, steps, i, s, fuel);
            |r.steps| == |steps| && forall j :: i <= j < |steps| ==> r.steps[j].state == Passed
    decreases |steps| - i
  {
    if i < |steps| {
      var x := ExecuteStep(u, dir, steps[i], s, fuel);
      RunFromPasses(u, dir, steps[i := x.step], i + 1, x.sandbox, fuel);
      RunFromKeeps(u, dir, steps[i := x.step], i + 1, x.sandbox, fuel);
    }
  }

  /** A run that does not succeed stopped at one step, which failed when
      the run returned an error. */
  lemma {:induction false} RunFromStops<S>(u: Universe<S>, dir: string, steps: seq<TestStep>, i: nat,
                                           s: S, fuel: nat)
    requires i <= |steps|
    requires !RunFrom(u, dir, steps, i, s, fuel).result.Ok?
    ensures var r := RunFrom(u, dir, steps, i, s, fuel);
            exists k: nat :: StoppedAt(steps, r.steps, i, k) && (r.result.Err? ==> r.steps[k].state == Failed)
    decreases |steps| - i
  {
    var x := ExecuteStep(u, dir, steps[i], s, fuel);
    var next := steps[i := x.step];
    if x.result.Ok? {
      var from := i + 1;
      RunFromStops(u, dir, next, from, x.sandbox, fuel);
      var r := RunFrom(u, dir, next, from, x.sandbox, fuel);
      var k: nat :| StoppedAt(next, r.steps, from, k) && (r.result.Err? ==> r.steps[k].state == Failed);
      RunFromKeeps(u, dir, next, from, x.sandbox, fuel);
      assert StoppedAt(steps, r.steps, i, k);
    } else {
      assert StoppedAt(steps, next, i, i);
    }
  }

  /** `run_humane_steps` over freshly parsed steps: when it stops early,
      every step after the one that stopped it is still `Dormant`. */
  lemma LaterStepsStayDormant<S>(u: Universe<S>, dir: string, steps: seq<TestStep>, s: S, fuel: nat)
    requires forall j :: 0 <= j < |steps| ==> steps[j].state == Dormant
    requires !RunFrom(u, dir, steps, 0, s, fuel).result.Ok?
    ensures var r := RunFrom(u, dir, steps, 0, s, fuel);
            exists k: nat :: StoppedAt(steps, r.steps, 0, k)
                        && forall j :: k < j < |steps| ==> r.steps[j].state == Dormant
  {
    RunFromStops(u, dir, steps, 0, s, fuel);
  }

  /** A reference to a file the universe does not know fails with
      `InvalidRef`, naming the resolved path and the closest known one. */
  lemma RefToUnknownFile<S>(u: Universe<S>, dir: string, step: TestStep, s: S, fuel: nat)
    requires step.Ref? && u.resolve(dir, step.otherFile) !in u.tests
    ensures var target := u.resolve(dir, step.otherFile);
            var r := ExecuteStep(u, dir, step, s, fuel);
            r.result == Err(TestError(Errors.External(Errors.InvalidRef(target,
                                        OrNothing(u.closest(target, u.tests.Keys)))), step, ""))
            && r.step == Ref(step.otherFile, step.orig, step.hydratedSteps, Failed) && r.sandbox == s
  {
  }

  /** A reference to a known file runs a fresh copy of its steps from its
      directory on the same sandbox, keeps the steps that ran, mirrors their
      result in its state, and returns their error unchanged. */
  lemma RefToKnownFile<S>(u: Universe<S>, dir: string, step: TestStep, s: S, fuel: nat)
    requires step.Ref? && u.resolve(dir, step.otherFile) in u.tests && fuel > 0
    ensures var file := u.tests[u.resolve(dir, step.otherFile)];
            var inner := RunFrom(u, file.fileDirectory, file.steps, 0, s, fuel - 1);
            var r := ExecuteStep(u, dir, step, s, fuel);
            r.step.hydratedSteps == Some(inner.steps)
            && (r.step.state == Passed <==> inner.result.Ok?)
            && r.result == inner.result && r.sandbox == inner.sandbox
  {
  }
}
