/** The browser capabilities, humane_rework/src/definitions/browser/mod.rs:
    loading a page of the hosted site into a window, and evaluating a
    script inside the harness script that reports its errors, its console
    log and its result as one JSON object.

    The page browser is not part of this model: what it answers is passed
    in (`evaluate` and `navigate` stand for the window's methods, `debug`
    for the `{:?}` rendering of a value), as is the text of harness.js. */
module Browser {
  import opened Wrappers
  import opened Text
  import opened JsonValues
  import opened Binding
  import opened Sandbox
  import Errors

  const Marker := "// insert_humane_inner_js"
  const NoPageMessage := "no page has been loaded into the browser for this test"
  const ParseFailureMessage := "JavaScript failed to parse and run"
  const UnexpectedPrefix := "JavaScript returned an unexpected value: "
  const UnwrapNone := "called `Option::unwrap()` on a `None` value"
  const UnwrapErr := "called `Result::unwrap()` on an `Err` value: "
  const ConsoleScript := "return humane_log_events[`ALL`];"

  /** The page browser as the browser steps see it. */
  datatype PageBrowser = PageBrowser(
    harness: string,
    evaluate: (Window, string) -> Result<Option<Json>, string>,
    debug: Option<Json> -> string)

  /** `harnessed`: the harness with the script put where its marker is. */
  function Harnessed(harness: string, js: string): (r: string)
    ensures !Contains(harness, Marker) ==> r == harness
  {
    ReplaceAbsentMarker(harness, js);
    ReplaceAll(harness, Marker, js)
  }

  lemma ReplaceAbsentMarker(harness: string, js: string)
    ensures !Contains(harness, Marker) ==> ReplaceAll(harness, Marker, js) == harness
  {
    if !Contains(harness, Marker) {
      ReplaceAbsent(harness, Marker, js);
    }
  }

  /** A harness with one marker has the script in its place. */
  lemma HarnessedOnce(pre: string, post: string, js: string)
    requires forall i :: 0 <= i < |pre| ==> !OccursAt(pre + Marker + post, Marker, i)
    requires !Contains(post, Marker)
    ensures Harnessed(pre + Marker + post, js) == pre + js + post
  {
    ReplaceAtFirstOccurrence(pre, Marker, post, js);
    ReplaceAbsent(post, Marker, js);
  }

  predicate AllStrings(items: seq<Json>)
  {
    forall i :: 0 <= i < |items| ==> items[i].Str?
  }

  /** The texts of string items. */
  function Texts(items: seq<Json>): (r: seq<string>)
    requires AllStrings(items)
    ensures |r| == |items| && forall i :: 0 <= i < |items| ==> items[i] == Str(r[i])
  {
    seq(|items|, i requires 0 <= i < |items| => items[i].s)
  }

  /** The result decoding of `eval_and_return_js`, from what the script
      evaluated to. A reported error that is not a string, or a missing or
      non-string log, is an `unwrap` that panics. */
  function DecodeResult(value: Option<Json>, debug: Option<Json> -> string): (r: Result<Json, Errors.StepError>)
    ensures !(value.Some? && value.value.Object?) ==>
              r == Err(Errors.External(Errors.StepError(ParseFailureMessage)))
    ensures value.Some? && value.value.Object?
            && !("humane_errs" in value.value.fields && value.value.fields["humane_errs"].Array?) ==>
              r == Err(Errors.Internal(Errors.Custom(UnexpectedPrefix + debug(value))))
    ensures r.Ok? ==> value.Some? && value.value.Object? && "humane_errs" in value.value.fields
                      && value.value.fields["humane_errs"] == Array([])
                      && r.value == (if "inner_response" in value.value.fields
                                     then value.value.fields["inner_response"] else Null)
    ensures r.Err? && r.error.Assertion? ==>
              value.Some? && value.value.Object? && "humane_errs" in value.value.fields
              && value.value.fields["humane_errs"].Array?
              && |value.value.fields["humane_errs"].items| > 0
  {
    if !(value.Some? && value.value.Object?) then
      Err(Errors.External(Errors.StepError(ParseFailureMessage)))
    else
      var fields := value.value.fields;
      if !("humane_errs" in fields && fields["humane_errs"].Array?) then
        Err(Errors.Internal(Errors.Custom(UnexpectedPrefix + debug(value))))
      else
        var errors := fields["humane_errs"].items;
        if |errors| > 0 then
          if !AllStrings(errors) then Panic(UnwrapNone)
          else if !("logs" in fields && fields["logs"].Str?) then Panic(UnwrapNone)
          else Err(Errors.Assertion(Errors.BrowserJavascriptErr(Join(Texts(errors), "\n"), fields["logs"].s)))
        else if "inner_response" in fields then Ok(fields["inner_response"])
        else Ok(Null)
  }

  /** The object harness.js returns: its errors, the console log only when
      there are errors, and, when the script returned something, that
      result. */
  function Report(errors: seq<string>, logs: string, inner: Option<Json>): Json
  {
    var errs := map["humane_errs" := Array(Strs(errors))];
    var base := if |errors| > 0 then errs["logs" := Str(logs)] else errs;
    Object(if inner.Some? then base["inner_response" := inner.value] else base)
  }

  /** Strings as JSON items. */
  function Strs(texts: seq<string>): (r: seq<Json>)
    ensures AllStrings(r) && Texts(r) == texts
  {
    var r := seq(|texts|, i requires 0 <= i < |texts| => Str(texts[i]));
    assert Texts(r) == texts;
    r
  }

  /** A report listing errors decodes to them and the log. */
  lemma DecodeErrors(fields: map<string, Json>, errors: seq<string>, logs: string,
                     debug: Option<Json> -> string)
    requires "humane_errs" in fields && fields["humane_errs"] == Array(Strs(errors)) && |errors| > 0
    requires "logs" in fields && fields["logs"] == Str(logs)
    ensures DecodeResult(Some(Object(fields)), debug)
            == Err(Errors.Assertion(Errors.BrowserJavascriptErr(Join(errors, "\n"), logs)))
  {
  }

  /** A report listing no errors decodes to the script's result. */
  lemma DecodeNoErrors(fields: map<string, Json>, debug: Option<Json> -> string)
    requires "humane_errs" in fields && fields["humane_errs"] == Array([])
    ensures DecodeResult(Some(Object(fields)), debug)
            == Ok(if "inner_response" in fields then fields["inner_response"] else Null)
  {
  }

  lemma ReportFields(errors: seq<string>, logs: string, inner: Option<Json>)
    ensures var fields := Report(errors, logs, inner).fields;
            "humane_errs" in fields && fields["humane_errs"] == Array(Strs(errors))
            && ("logs" in fields <==> |errors| > 0)
            && (|errors| > 0 ==> fields["logs"] == Str(logs))
            && ("inner_response" in fields <==> inner.Some?)
            && (inner.Some? ==> fields["inner_response"] == inner.value)
            && (|errors| == 0 ==> Strs(errors) == [])
  {
  }

  /** Decoding what the harness reports gives the script's result, or
      its errors joined by newlines together with its log. */
  lemma DecodeReport(errors: seq<string>, logs: string, inner: Option<Json>, debug: Option<Json> -> string)
    ensures DecodeResult(Some(Report(errors, logs, inner)), debug)
            == if |errors| > 0
               then Err(Errors.Assertion(Errors.BrowserJavascriptErr(Join(errors, "\n"), logs)))
               else Ok(if inner.Some? then inner.value else Null)
  {
    var fields := Report(errors, logs, inner).fields;
    ReportFields(errors, logs, inner);
    if |errors| > 0 {
      DecodeErrors(fields, errors, logs, debug);
    } else {
      DecodeNoErrors(fields, debug);
    }
  }

  /** `eval_and_return_js`: the harnessed script runs in the window of the
      sandbox, if a page was loaded. */
  function EvalAndReturn(civ: Civilization, b: PageBrowser, js: string): (r: Result<Json, Errors.StepError>)
    reads civ
    ensures civ.window.None? ==> r == Err(Errors.External(Errors.StepRequirementsNotMet(NoPageMessage)))
    ensures civ.window.Some? && b.evaluate(civ.window.value, Harnessed(b.harness, js)).Err? ==>
              r == Err(Errors.Internal(Errors.PagebrowseError(
                     b.evaluate(civ.window.value, Harnessed(b.harness, js)).error)))
    ensures civ.window.Some? && b.evaluate(civ.window.value, Harnessed(b.harness, js)).Ok? ==>
              r == DecodeResult(b.evaluate(civ.window.value, Harnessed(b.harness, js)).value, b.debug)
  {
    match civ.window
    case None => Err(Errors.External(Errors.StepRequirementsNotMet(NoPageMessage)))
    case Some(w) =>
      match b.evaluate(w, Harnessed(b.harness, js))
      case Err(m) => Err(Errors.Internal(Errors.PagebrowseError(m)))
      case Panic(m) => Panic(m)
      case Ok(v) => DecodeResult(v, b.debug)
  }

  /** `EvalJs::run`: the script of argument `js`, its result dropped. */
  function EvalJs(civ: Civilization, b: PageBrowser, args: SegmentArgs): (r: Result<(), Errors.StepError>)
    reads civ
    ensures GetString(args, "js").Err? ==> r == Err(Errors.External(GetString(args, "js").error))
    ensures GetString(args, "js").Ok? ==>
              (r.Ok? <==> EvalAndReturn(civ, b, GetString(args, "js").value).Ok?)
    ensures GetString(args, "js").Ok? && !EvalAndReturn(civ, b, GetString(args, "js").value).Ok? ==>
              r == EvalAndReturn(civ, b, GetString(args, "js").value).PropagateFailure()
  {
    match GetString(args, "js")
    case Err(e) => Err(Errors.External(e))
    case Panic(m) => Panic(m)
    case Ok(js) =>
      match EvalAndReturn(civ, b, js)
      case Ok(_) => Ok(())
      case Err(e) => Err(e)
      case Panic(m) => Panic(m)
  }

  /** `GetJs::run`: the result of the script of argument `js`. */
  function GetJs(civ: Civilization, b: PageBrowser, args: SegmentArgs): (r: Result<Json, Errors.StepError>)
    reads civ
    ensures GetString(args, "js").Err? ==> r == Err(Errors.External(GetString(args, "js").error))
    ensures GetString(args, "js").Ok? ==> r == EvalAndReturn(civ, b, GetString(args, "js").value)
  {
    match GetString(args, "js")
    case Err(e) => Err(Errors.External(e))
    case Panic(m) => Panic(m)
    case Ok(js) => EvalAndReturn(civ, b, js)
  }

  /** `GetConsole::run`: the console events the harness collected. */
  function GetConsole(civ: Civilization, b: PageBrowser): (r: Result<Json, Errors.StepError>)
    reads civ
    ensures civ.window.None? ==> r == Err(Errors.External(Errors.StepRequirementsNotMet(NoPageMessage)))
    ensures civ.window.Some? ==> r == EvalAndReturn(civ, b, ConsoleScript)
  {
    EvalAndReturn(civ, b, ConsoleScript)
  }

  /** With a page loaded, the console step answers with the log the
      harness reports, or fails with the errors the harness caught. */
  lemma GetConsoleReport(civ: Civilization, b: PageBrowser, errors: seq<string>, logs: string, events: Json)
    requires civ.window.Some?
    requires b.evaluate(civ.window.value, Harnessed(b.harness, ConsoleScript))
             == Ok(Some(Report(errors, logs, Some(events))))
    ensures |errors| == 0 ==> GetConsole(civ, b) == Ok(events)
    ensures |errors| > 0 ==>
              GetConsole(civ, b) == Err(Errors.Assertion(Errors.BrowserJavascriptErr(Join(errors, "\n"), logs)))
  {
    DecodeReport(errors, logs, Some(events), b.debug);
  }

  /** The address of `path` on the sandbox's server. */
  function PageUrl(port: Port, path: string): (r: string)
    ensures IsPrefix("http://localhost:", r) && IsSuffix(path, r)
  {
    "http://localhost:" + IntToString(port) + path
  }

  /** `LoadPage::run`: the port is made sure of before the argument `url`
      is read, the page browser's window (`window`, whose failure is an
      `unwrap` that panics) navigates to the page, and only then becomes
      the sandbox's window. */
  method LoadPage(civ: Civilization, args: SegmentArgs, picked: Option<Port>, window: Result<Window, string>,
                  navigate: (Window, string) -> Result<(), string>) returns (r: Result<(), Errors.StepError>)
    modifies civ`assignedServerPort, civ`window
    ensures old(civ.assignedServerPort).Some? ==> civ.assignedServerPort == old(civ.assignedServerPort)
    ensures old(civ.assignedServerPort).None? ==> civ.assignedServerPort == picked
    ensures civ.assignedServerPort.None? ==> r == Panic(NoPortMessage)
    ensures civ.assignedServerPort.Some? && GetString(args, "url").Err? ==>
              r == Err(Errors.External(GetString(args, "url").error))
    ensures civ.assignedServerPort.Some? && GetString(args, "url").Ok? && window.Err? ==>
              r == Panic(UnwrapErr + window.error)
    ensures civ.assignedServerPort.Some? && GetString(args, "url").Ok? && window.Ok? ==>
              var nav := navigate(window.value, PageUrl(civ.assignedServerPort.value, GetString(args, "url").value));
              (nav.Ok? ==> r == Ok(())) && (nav.Err? ==> r == Err(Errors.Internal(Errors.PagebrowseError(nav.error))))
    ensures r.Ok? ==> window.Ok? && civ.window == Some(window.value)
    ensures !r.Ok? ==> civ.window == old(civ.window)
  {
    var port := civ.EnsurePort(picked);
    if !port.Ok? {
      return Panic(port.message);
    }
    var url := GetString(args, "url");
    if url.Err? {
      return Err(Errors.External(url.error));
    }
    if window.Err? {
      return Panic(UnwrapErr + window.error);
    } else if window.Panic? {
      return Panic(window.message);
    }
    var nav := navigate(window.value, PageUrl(port.value, url.value));
    if nav.Err? {
      return Err(Errors.Internal(Errors.PagebrowseError(nav.error)));
    } else if nav.Panic? {
      return Panic(nav.message);
    }
    civ.window := Some(window.value);
    r := Ok(());
  }
}
