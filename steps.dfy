/** The steps of a test file, humane_rework/src/main.rs: `HumaneTestStep`
    with its `state()`, its `Display` and its `args_pretty`, the state a
    step ends in, and the error of a whole test, which names the step that
    failed. */
module Steps {
  import opened Wrappers
  import opened Text
  import opened JsonValues
  import opened Segments
  import Errors

  /** `HumaneTestStepState`: every parsed step starts `Dormant`. */
  datatype StepState = Dormant | Failed | Passed

  /** `HumaneTestStep`. A `Ref` runs the steps of another file;
      `hydratedSteps` receives the copy of them it ran. A `Snapshot`
      receives the retrieved text in `snapshotContent`. */
  datatype TestStep =
    | Ref(otherFile: string, orig: string, hydratedSteps: Option<seq<TestStep>>, state: StepState)
    | Instruction(step: Pattern, args: map<string, Json>, orig: string, state: StepState)
    | Assertion(retrieval: Pattern, assertion: Pattern, args: map<string, Json>, orig: string,
                state: StepState)
    | Snapshot(snapshot: Pattern, snapshotContent: Option<string>, args: map<string, Json>,
               orig: string, state: StepState)

  /** `HumaneTestFile`. Whether the file is a test or only referenced is
      not part of this model. */
  datatype TestFile = TestFile(name: string, steps: seq<TestStep>, originalSource: string,
                               filePath: string, fileDirectory: string)

  /** `HumaneTestError`: the step error, the step as it was before it ran,
      and its arguments as text. */
  datatype TestError = TestError(err: Errors.StepError, step: TestStep, argStr: string)

  /** `state()`: the state of a step, whichever variant it is. */
  function StateOf(s: TestStep): (r: StepState)
    ensures r == s.state
  {
    match s
    case Ref(_, _, _, st) => st
    case Instruction(_, _, _, st) => st
    case Assertion(_, _, _, _, st) => st
    case Snapshot(_, _, _, _, st) => st
  }

  const RefPrefix := "run steps from: "
  const SnapshotPrefix := "snapshot: "

  /** `Display for HumaneTestStep`: the step as the user wrote it, with a
      prefix for references and snapshots. */
  function Display(s: TestStep): (r: string)
    ensures |r| >= |s.orig| && r[|r| - |s.orig|..] == s.orig
    ensures s.Instruction? || s.Assertion? ==> r == s.orig
    ensures s.Ref? ==> r[..|r| - |s.orig|] == RefPrefix
    ensures s.Snapshot? ==> r[..|r| - |s.orig|] == SnapshotPrefix
  {
    match s
    case Instruction(_, _, orig, _) => orig
    case Assertion(_, _, _, orig, _) => orig
    case Ref(_, orig, _, _) => RefPrefix + orig
    case Snapshot(_, _, _, orig, _) => SnapshotPrefix + orig
  }

  /** Two steps written alike display alike exactly when they are of the
      same display kind: instructions and assertions show no prefix,
      references and snapshots each show their own. */
  lemma DisplayTellsKinds(a: TestStep, b: TestStep)
    requires a.orig == b.orig
    ensures Display(a) == Display(b) <==>
              ((a.Instruction? || a.Assertion?) && (b.Instruction? || b.Assertion?))
              || (a.Ref? && b.Ref?) || (a.Snapshot? && b.Snapshot?)
  {
    if Display(a) == Display(b) {
      assert |Display(a)| == |Display(b)|;
    }
  }

  /** `args_pretty`: the YAML text of the step's arguments (`yaml` is the
      serialiser, which is not part of this model), or nothing for a
      reference or for an empty mapping. */
  function ArgsPretty(s: TestStep, yaml: map<string, Json> -> string): (r: string)
    ensures r != "" ==> !s.Ref? && r == yaml(s.args) && Trim(r) != "{}"
    ensures !s.Ref? && Trim(yaml(s.args)) != "{}" ==> r == yaml(s.args)
  {
    if s.Ref? then ""
    else
      var res := yaml(s.args);
      if Trim(res) == "{}" then "" else res
  }
}
