/** The error values of humane_rework/src/errors.rs, with the variants and
    fields the other files of the crate construct added (`DuplicateName`,
    `InvalidRef`, `StepError` and `BrowserJavascriptErr`). The error of a
    whole test, which holds a step, lives with the steps in `Steps`. */
module Errors {

  /** `HumaneInputError`: the steps or their arguments are wrong.
      The `has` of `NonexistentArgument` is the set of argument names that
      were available; the source joins them with ", " in hash-map order. */
  datatype InputError =
    | NonexistentArgument(arg: string, has: set<string>)
    | IncorrectArgumentType(arg: string, was: string, expected: string)
    | ArgumentRequiresValue(arg: string)
    | ParseError(msg: string)
    | UnclosedValue(closer: char)
    | InvalidPath(input: string)
    | NonexistentStep
    | StepRequirementsNotMet(reason: string)
    | StepError(reason: string)
    | DuplicateName(pathOne: string, pathTwo: string, name: string)
    | InvalidRef(input: string, closest: string)

  /** `HumaneInternalError`: something went wrong in the tool or the browser. */
  datatype InternalError =
    | Custom(msg: string)
    | PagebrowseError(msg: string)

  /** `HumaneTestFailure`: the system under test did not do what was asked. */
  datatype TestFailure =
    | Failure(msg: string)  // `HumaneTestFailure::Custom`
    | BrowserJavascriptErr(msg: string, logs: string)

  /** `HumaneStepError`: why one step stopped. */
  datatype StepError =
    | External(input: InputError)
    | Internal(internal: InternalError)
    | Assertion(failure: TestFailure)
}
