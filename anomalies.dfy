/**
 * The anomaly detection page: a form whose submit builds a request for the
 * external classifier, marks the page busy, awaits one call and records either
 * the returned analysis or an error message.
 *
 * The classifier itself is outside this model; a call is represented by its
 * outcome, which the caller passes to `Complete`.
 */
module Anomalies {
  import opened Wrappers

  /** The classifier's input: traffic text and, when given, a baseline profile. */
  datatype DetectionInput = DetectionInput(networkTrafficData: string, baselineProfile: Option<string>)

  /** The classifier's structured answer, shown as returned. */
  datatype DetectionOutput = DetectionOutput(
    anomaliesDetected: bool,
    anomalyReport: string,
    confidenceScore: real,
    suggestedActions: string)

  /** What a failed call throws: an `Error` with a message, or any other value. */
  datatype Thrown = ErrorObject(message: string) | NonErrorValue

  /** How the awaited call ends. */
  datatype CallOutcome = Resolved(output: DetectionOutput) | Rejected(thrown: Thrown)

  const UnknownErrorMessage: string := "An unknown error occurred during anomaly detection."

  /** The request of a submit: the baseline is attached only when non-empty. */
  function BuildInput(networkTrafficData: string, baselineProfile: string): (input: DetectionInput)
    ensures input.networkTrafficData == networkTrafficData
    ensures input.baselineProfile.Some? <==> baselineProfile != ""
    ensures input.baselineProfile.Some? ==> input.baselineProfile.value == baselineProfile
  {
    var input := DetectionInput(networkTrafficData, None);
    if baselineProfile != "" then input.(baselineProfile := Some(baselineProfile)) else input
  }

  /** The message shown for a failed call. */
  function ErrorMessage(thrown: Thrown): (message: string)
    ensures thrown.ErrorObject? ==> message == thrown.message
    ensures thrown.NonErrorValue? ==> message == UnknownErrorMessage
  {
    if thrown.ErrorObject? then thrown.message else UnknownErrorMessage
  }

  /** The part of the page a submit changes. */
  datatype Panel = Panel(isLoading: bool, error: Option<string>, analysisResult: Option<DetectionOutput>)

  /** The panel while a call is outstanding. */
  const Busy: Panel := Panel(true, None, None)

  /** The panel once the call has ended with the given outcome. */
  function Settled(outcome: CallOutcome): (p: Panel)
    ensures !p.isLoading
    ensures p.analysisResult.Some? <==> outcome.Resolved?
    ensures p.error.Some? <==> outcome.Rejected?
  {
    match outcome
    case Resolved(output) => Panel(false, None, Some(output))
    case Rejected(thrown) => Panel(false, Some(ErrorMessage(thrown)), None)
  }

  /**
   * The panel invariant: an error and a result are never shown together, and
   * neither is shown while a call is outstanding.
   */
  predicate Consistent(p: Panel)
  {
    !(p.error.Some? && p.analysisResult.Some?) && (p.isLoading ==> p.error == None && p.analysisResult == None)
  }

  /** A settled panel shows exactly what the call produced, unchanged. */
  lemma SettledShowsOutcome(outcome: CallOutcome)
    ensures Consistent(Settled(outcome))
    ensures outcome.Resolved? ==> Settled(outcome).analysisResult == Some(outcome.output)
    ensures outcome.Rejected? ==> Settled(outcome).error == Some(ErrorMessage(outcome.thrown))
  {
  }

  /**
   * Whether the inline "Detection Error" alert renders: the page tests `error`
   * for truthiness, so an empty message, though stored, shows no alert.
   */
  predicate ErrorAlertShown(p: Panel)
  {
    p.error.Some? && p.error.value != ""
  }

  /**
   * The alert renders after a failed call unless the thrown `Error` has an
   * empty message; a non-`Error` value always yields the default text.
   */
  lemma SettledAlert(outcome: CallOutcome)
    ensures ErrorAlertShown(Settled(outcome)) <==>
      outcome.Rejected? && !(outcome.thrown.ErrorObject? && outcome.thrown.message == "")
  {
  }

  /** The anomaly detection page's state. */
  class AnomalyForm {
    var networkTrafficData: string
    var baselineProfile: string
    var isLoading: bool
    var error: Option<string>
    var analysisResult: Option<DetectionOutput>

    function Status(): Panel
      reads this
    {
      Panel(isLoading, error, analysisResult)
    }

    ghost predicate Valid()
      reads this
    {
      Consistent(Status())
    }

    constructor ()
      ensures Valid()
      ensures networkTrafficData == "" && baselineProfile == ""
      ensures Status() == Panel(false, None, None)
    {
      networkTrafficData, baselineProfile := "", "";
      isLoading, error, analysisResult := false, None, None;
    }

    /** Typing in the traffic text area. */
    method SetNetworkTrafficData(text: string)
      requires Valid()
      modifies this
      ensures Valid()
      ensures networkTrafficData == text
      ensures baselineProfile == old(baselineProfile) && Status() == old(Status())
    {
      networkTrafficData := text;
    }

    /** Typing in the baseline text area. */
    method SetBaselineProfile(text: string)
      requires Valid()
      modifies this
      ensures Valid()
      ensures baselineProfile == text
      ensures networkTrafficData == old(networkTrafficData) && Status() == old(Status())
    {
      baselineProfile := text;
    }

    /**
     * The first half of handleSubmit. With no traffic text nothing changes and
     * no call is made (`call` is None); otherwise the page turns busy and `call`
     * is the request to send.
     */
    method Start() returns (call: Option<DetectionInput>)
      requires Valid()
      modifies this
      ensures Valid()
      ensures networkTrafficData == old(networkTrafficData) && baselineProfile == old(baselineProfile)
      ensures call.None? <==> old(networkTrafficData) == ""
      ensures call.None? ==> Status() == old(Status())
      ensures call.Some? ==> call.value == BuildInput(networkTrafficData, baselineProfile) && Status() == Busy
    {
      if networkTrafficData == "" {
        return None;
      }
      isLoading := true;
      error := None;
      analysisResult := None;
      var input := DetectionInput(networkTrafficData, None);
      if baselineProfile != "" {
        input := input.(baselineProfile := Some(baselineProfile));
      }
      call := Some(input);
    }

    /**
     * The second half of handleSubmit: the awaited call has ended. The `try`
     * branch stores the result, the `catch` branch the message, and `finally`
     * clears the busy flag.
     */
    method Complete(outcome: CallOutcome)
      requires Valid() && Status() == Busy
      modifies this
      ensures Valid()
      ensures networkTrafficData == old(networkTrafficData) && baselineProfile == old(baselineProfile)
      ensures Status() == Settled(outcome)
    {
      match outcome {
        case Resolved(output) =>
          analysisResult := Some(output);
        case Rejected(thrown) =>
          var errorMessage := if thrown.ErrorObject? then thrown.message else UnknownErrorMessage;
          error := Some(errorMessage);
      }
      isLoading := false;
    }
  }

  /**
   * A whole submit, with `detect` standing for the classifier: with traffic text
   * the page ends idle, showing the call's result or its error; without, nothing
   * changes.
   */
  method HandleSubmit(page: AnomalyForm, detect: DetectionInput -> CallOutcome)
    requires page.Valid()
    modifies page
    ensures page.Valid()
    ensures page.networkTrafficData == old(page.networkTrafficData)
    ensures page.baselineProfile == old(page.baselineProfile)
    ensures old(page.networkTrafficData) == "" ==> page.Status() == old(page.Status())
    ensures old(page.networkTrafficData) != "" ==>
      page.Status() == Settled(detect(BuildInput(old(page.networkTrafficData), old(page.baselineProfile))))
  {
    var call := page.Start();
    if call.Some? {
      page.Complete(detect(call.value));
    }
  }
}
