/** What one screenshot command does, stated declaratively: how many captures
    it takes, how many backoff sleeps it performs, which capture it hands to
    the encoder and which response it sends. The handler's retry loop is
    proved to follow this plan; the lemmas below say what the plan means. */
module CapturePlan {
  import opened Win32
  import opened EncodingSteps

  /** The capture loop's try budget. */
  const Tries: nat := 4
  /** The sleep after a single-coloured capture, in milliseconds. */
  const BackoffMs: nat := 2000
  /** The status GetCurrentBrowser reports when it finds the browser. */
  const WdSuccess: int := 0
  const UnableToGetBrowser: string := "Unable to get browser"

  /** What one try observes: the HRESULT of the capture and whether the
      captured image is a single colour. */
  datatype Attempt = Attempt(hr: HRESULT, singleColour: bool)

  /** The response the handler sends back to the command executor. */
  datatype ResponseValue =
    | SuccessResponse(value: string)
    | ErrorResponse(status: int, message: string)

  /** A try that stops the loop: a failed capture, or an image that is not a
      single colour. */
  predicate EndsLoop(a: Attempt) {
    Failed(a.hr) || !a.singleColour
  }

  /** A try the loop goes on from: the capture succeeded and was a single colour. */
  predicate Retried(a: Attempt) {
    !Failed(a.hr) && a.singleColour
  }

  /** The index of the last try: the first one at or after `from` that ends
      the loop, or the last one the budget allows. */
  function StopIndex(attempts: seq<Attempt>, from: nat): (k: nat)
    requires from < Tries <= |attempts|
    ensures from <= k < Tries
    ensures EndsLoop(attempts[k]) || k == Tries - 1
    ensures forall m :: from <= m < k ==> Retried(attempts[m])
    decreases Tries - from
  {
    if EndsLoop(attempts[from]) || from == Tries - 1 then from
    else StopIndex(attempts, from + 1)
  }

  /** Any index meeting StopIndex's description is StopIndex's result. */
  lemma StopIndexIsUnique(attempts: seq<Attempt>, k: nat)
    requires k < Tries <= |attempts|
    requires forall m :: 0 <= m < k ==> Retried(attempts[m])
    requires EndsLoop(attempts[k]) || k == Tries - 1
    ensures StopIndex(attempts, 0) == k
  {
  }

  /** The observable outcome of one command. `encoded` is the index of the
      capture handed to the encoder, if any. */
  datatype Outcome = Outcome(captures: nat, sleeps: nat, encoded: Option<nat>, response: ResponseValue)

  /** The outcome of the command, given the browser-lookup status, what each
      try would observe, and what the encoding steps report. */
  function Expected(status: int, attempts: seq<Attempt>, steps: EncodeSteps): (o: Outcome)
    requires Tries <= |attempts|
    ensures o.captures <= Tries && o.sleeps <= o.captures
    ensures o.encoded.Some? ==> o.encoded.value == o.captures - 1
  {
    if status != WdSuccess then
      Outcome(0, 0, None, ErrorResponse(status, UnableToGetBrowser))
    else
      var k := StopIndex(attempts, 0);
      if Failed(attempts[k].hr) then
        Outcome(k + 1, k, None, SuccessResponse(""))
      else
        var sleeps := if attempts[k].singleColour then k + 1 else k;
        var hr := Base64Status(true, steps);
        Base64SucceedsIffEveryStepSucceeds(true, steps);
        var response := if Failed(hr) then SuccessResponse("") else SuccessResponse(steps.encoded.value);
        Outcome(k + 1, sleeps, Some(k), response)
  }

  /** The number of tries in `attempts` that succeeded with a single-coloured image. */
  function CountSingleColour(attempts: seq<Attempt>): nat {
    if attempts == [] then 0
    else CountSingleColour(attempts[..|attempts| - 1]) + (if Retried(attempts[|attempts| - 1]) then 1 else 0)
  }

  lemma {:induction false} CountSingleColourOfRetried(attempts: seq<Attempt>)
    requires forall m :: 0 <= m < |attempts| ==> Retried(attempts[m])
    ensures CountSingleColour(attempts) == |attempts|
  {
    if attempts != [] {
      CountSingleColourOfRetried(attempts[..|attempts| - 1]);
    }
  }

  /** A failed browser lookup is reported as an error carrying the lookup's
      status; nothing is captured, slept or encoded. */
  lemma BrowserLookupFailure(status: int, attempts: seq<Attempt>, steps: EncodeSteps)
    requires Tries <= |attempts| && status != WdSuccess
    ensures Expected(status, attempts, steps) == Outcome(0, 0, None, ErrorResponse(status, "Unable to get browser"))
  {
  }

  /** The only error response is the browser-lookup failure; capture and
      encoding problems are answered with a success response. */
  lemma ErrorOnlyForBrowserLookup(status: int, attempts: seq<Attempt>, steps: EncodeSteps)
    requires Tries <= |attempts|
    ensures Expected(status, attempts, steps).response.ErrorResponse? <==> status != WdSuccess
  {
  }

  /** Once the browser is found the loop runs at least once and at most
      `Tries` times. */
  lemma CaptureCountBounds(status: int, attempts: seq<Attempt>, steps: EncodeSteps)
    requires Tries <= |attempts| && status == WdSuccess
    ensures 1 <= Expected(status, attempts, steps).captures <= Tries
  {
  }

  /** The encoder gets capture `k` exactly when every earlier try was a
      successful single-coloured capture, capture `k` itself succeeded, and
      it is either not a single colour or the last try. In particular a
      single-coloured last capture is kept and encoded, not discarded. */
  lemma EncodedCaptureIsFirstAccepted(status: int, attempts: seq<Attempt>, steps: EncodeSteps, k: nat)
    requires Tries <= |attempts|
    ensures Expected(status, attempts, steps).encoded == Some(k) <==>
      status == WdSuccess && k < Tries &&
      (forall m :: 0 <= m < k ==> Retried(attempts[m])) &&
      !Failed(attempts[k].hr) && (!attempts[k].singleColour || k == Tries - 1)
  {
    if status == WdSuccess && k < Tries && (forall m :: 0 <= m < k ==> Retried(attempts[m])) &&
       !Failed(attempts[k].hr) && (!attempts[k].singleColour || k == Tries - 1) {
      StopIndexIsUnique(attempts, k);
    }
  }

  /** A capture that fails ends the command at once: no further tries, no
      encoding, and a success response carrying the empty string. */
  lemma FailedCaptureAbortsCommand(status: int, attempts: seq<Attempt>, steps: EncodeSteps, k: nat)
    requires Tries <= |attempts| && status == WdSuccess && k < Tries
    requires forall m :: 0 <= m < k ==> Retried(attempts[m])
    requires Failed(attempts[k].hr)
    ensures Expected(status, attempts, steps) == Outcome(k + 1, k, None, SuccessResponse(""))
  {
    StopIndexIsUnique(attempts, k);
  }

  /** There is one 2000 ms sleep per successful single-coloured capture. */
  lemma SleepsCountSingleColourCaptures(status: int, attempts: seq<Attempt>, steps: EncodeSteps)
    requires Tries <= |attempts| && status == WdSuccess
    ensures Expected(status, attempts, steps).sleeps ==
            CountSingleColour(attempts[..Expected(status, attempts, steps).captures])
  {
    var k := StopIndex(attempts, 0);
    var taken := attempts[..k + 1];
    assert taken[..k] == attempts[..k];
    CountSingleColourOfRetried(attempts[..k]);
  }

  /** A target that is a single colour on every try is captured `Tries`
      times with a sleep after each capture, including the last, and the
      last capture is encoded. */
  lemma AlwaysSingleColourTarget(status: int, attempts: seq<Attempt>, steps: EncodeSteps)
    requires Tries <= |attempts| && status == WdSuccess
    requires forall m :: 0 <= m < Tries ==> Retried(attempts[m])
    ensures Expected(status, attempts, steps).captures == 4
    ensures Expected(status, attempts, steps).sleeps == 4
    ensures Expected(status, attempts, steps).encoded == Some(3)
  {
    StopIndexIsUnique(attempts, Tries - 1);
  }

  /** A first capture with two colours is accepted without a retry or a sleep. */
  lemma FirstDistinctCaptureIsKept(status: int, attempts: seq<Attempt>, steps: EncodeSteps)
    requires Tries <= |attempts| && status == WdSuccess
    requires !Failed(attempts[0].hr) && !attempts[0].singleColour
    ensures Expected(status, attempts, steps).captures == 1
    ensures Expected(status, attempts, steps).sleeps == 0
    ensures Expected(status, attempts, steps).encoded == Some(0)
  {
    StopIndexIsUnique(attempts, 0);
  }

  /** The outcome when capture `k` is the one kept: every earlier try was
      a successful single-coloured capture, capture `k` succeeded, and it is
      either not a single colour or the last try. */
  lemma KeptCaptureOutcome(status: int, attempts: seq<Attempt>, steps: EncodeSteps, k: nat)
    requires Tries <= |attempts| && status == WdSuccess && k < Tries
    requires forall m :: 0 <= m < k ==> Retried(attempts[m])
    requires !Failed(attempts[k].hr) && (!attempts[k].singleColour || k == Tries - 1)
    ensures Expected(status, attempts, steps) ==
      Outcome(k + 1, if attempts[k].singleColour then k + 1 else k, Some(k),
              if !Failed(Base64Status(true, steps)) && steps.encoded.Some? then SuccessResponse(steps.encoded.value)
              else SuccessResponse(""))
  {
    Base64SucceedsIffEveryStepSucceeds(true, steps);
    StopIndexIsUnique(attempts, k);
  }

  /** After an encoded capture, the response carries the encoder's text when
      every encoding step succeeds, and the empty string otherwise. */
  lemma EncodedResponse(status: int, attempts: seq<Attempt>, steps: EncodeSteps)
    requires Tries <= |attempts| && Expected(status, attempts, steps).encoded.Some?
    ensures !Failed(Base64Status(true, steps)) ==>
              steps.encoded.Some? && Expected(status, attempts, steps).response == SuccessResponse(steps.encoded.value)
    ensures Failed(Base64Status(true, steps)) ==> Expected(status, attempts, steps).response == SuccessResponse("")
  {
    Base64SucceedsIffEveryStepSucceeds(true, steps);
  }

  /** The capturer of this handler always reports S_OK, so with it the
      failed-capture path is never taken and some capture is always encoded. */
  lemma ShownCapturerNeverAborts(status: int, attempts: seq<Attempt>, steps: EncodeSteps)
    requires Tries <= |attempts| && status == WdSuccess
    requires forall m :: 0 <= m < |attempts| ==> attempts[m].hr == S_OK
    ensures Expected(status, attempts, steps).encoded.Some?
  {
  }
}
