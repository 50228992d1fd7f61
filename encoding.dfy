/** The error sequencing of GetBase64Data: the captured image is saved as PNG
    into an in-memory stream, the stream is measured, locked and base64
    encoded. Every step is a foreign call, so each is represented only by the
    result it reports; the first step that fails decides the HRESULT. */
module EncodingSteps {
  import opened Win32

  /** What each foreign call of the encoding pipeline reports. */
  datatype EncodeSteps = EncodeSteps(
    createStream: HRESULT,   // ::CreateStreamOnHGlobal
    save: HRESULT,           // CImage::Save into the stream, as PNG
    stat: HRESULT,           // IStream::Stat, for the stream size
    getHGlobal: HRESULT,     // ::GetHGlobalFromStream
    requiredLength: int,     // ::Base64EncodeGetRequiredLength
    locked: bool,            // ::GlobalLock returned a non-NULL pointer
    encoded: Option<string>) // ::Base64Encode: Some(text) when it returns TRUE

  /** The status each step of GetBase64Data contributes, in program order:
      the image pointer check (E_POINTER), the four COM/Win32 calls, the
      required-length check, the lock and the encoder (each E_FAIL). */
  function StepResults(imagePresent: bool, steps: EncodeSteps): seq<HRESULT> {
    [ if imagePresent then S_OK else E_POINTER,
      steps.createStream,
      steps.save,
      steps.stat,
      steps.getHGlobal,
      if steps.requiredLength > 0 then S_OK else E_FAIL,
      if steps.locked then S_OK else E_FAIL,
      if steps.encoded.Some? then S_OK else E_FAIL ]
  }

  /** The status of a chain of steps that stops at the first failure: that
      failure's HRESULT, or S_OK when no step fails. */
  function FirstFailure(results: seq<HRESULT>): (hr: HRESULT)
    ensures Failed(hr) <==> exists k :: 0 <= k < |results| && Failed(results[k])
    ensures !Failed(hr) ==> hr == S_OK
    ensures Failed(hr) ==> exists k :: 0 <= k < |results| && hr == results[k] &&
                                       forall m :: 0 <= m < k ==> !Failed(results[m])
  {
    if results == [] then S_OK
    else if Failed(results[0]) then results[0]
    else
      var hr := FirstFailure(results[1..]);
      assert forall k :: 1 <= k < |results| ==> results[k] == results[1..][k - 1];
      hr
  }

  /** The first failing step wins: whatever the later steps report, the
      chain's status is the status of the earliest step that fails. */
  lemma {:induction false} FirstFailingStepWins(results: seq<HRESULT>, k: nat)
    requires k < |results| && Failed(results[k])
    requires forall m :: 0 <= m < k ==> !Failed(results[m])
    ensures FirstFailure(results) == results[k]
  {
    if k > 0 {
      assert !Failed(results[0]);
      FirstFailingStepWins(results[1..], k - 1);
    }
  }

  /** The HRESULT GetBase64Data returns. */
  function Base64Status(imagePresent: bool, steps: EncodeSteps): HRESULT {
    FirstFailure(StepResults(imagePresent, steps))
  }

  /** GetBase64Data succeeds exactly when there is an image and every step
      succeeds: the four calls report success, the required length is
      positive, the lock is obtained and the encoder reports success. */
  lemma Base64SucceedsIffEveryStepSucceeds(imagePresent: bool, steps: EncodeSteps)
    ensures !Failed(Base64Status(imagePresent, steps)) <==>
      imagePresent && !Failed(steps.createStream) && !Failed(steps.save) &&
      !Failed(steps.stat) && !Failed(steps.getHGlobal) &&
      steps.requiredLength > 0 && steps.locked && steps.encoded.Some?
  {
    var results := StepResults(imagePresent, steps);
    assert |results| == 8;
    assert results[0] == (if imagePresent then S_OK else E_POINTER);
    assert results[1] == steps.createStream && results[2] == steps.save;
    assert results[3] == steps.stat && results[4] == steps.getHGlobal;
    assert results[5] == (if steps.requiredLength > 0 then S_OK else E_FAIL);
    assert results[6] == (if steps.locked then S_OK else E_FAIL);
    assert results[7] == (if steps.encoded.Some? then S_OK else E_FAIL);
  }

  /** With no image the pipeline stops at once with E_POINTER. */
  lemma NullImageIsPointerError(steps: EncodeSteps)
    ensures Base64Status(false, steps) == E_POINTER
  {
    FirstFailingStepWins(StepResults(false, steps), 0);
  }

  /** Once the image and the stream calls are fine, a non-positive required
      length, a failed lock or a failed encoder each give E_FAIL. */
  lemma LateFailuresAreGenericFailures(steps: EncodeSteps)
    requires !Failed(steps.createStream) && !Failed(steps.save)
    requires !Failed(steps.stat) && !Failed(steps.getHGlobal)
    requires steps.requiredLength <= 0 || !steps.locked || steps.encoded.None?
    ensures Base64Status(true, steps) == E_FAIL
  {
    var results := StepResults(true, steps);
    var k := if steps.requiredLength <= 0 then 5 else if !steps.locked then 6 else 7;
    FirstFailingStepWins(results, k);
  }
}
