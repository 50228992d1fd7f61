/** The screenshot command handler: capture the browser's content window,
    retry while the capture is a single colour, encode the kept image as
    base64 PNG and answer with it. The browser lookup, the window capture and
    the encoding calls are the outside world; the handler receives what they
    report as arguments and records what it asked of them. */
module ScreenshotCommandHandler {
  import opened Win32
  import opened EncodingSteps
  import opened CapturePlan
  import opened WindowGeometry

  /** The bitmap a CImage holds: `width` columns of `height` pixels each,
      pixels[x][y] being the colour at column x, row y. */
  datatype Bitmap = Bitmap(width: nat, height: nat, pixels: seq<seq<ColorRef>>) {
    predicate Valid() {
      |pixels| == width && forall x :: 0 <= x < width ==> |pixels[x]| == height
    }
  }

  /** A well-formed bitmap. The one with no pixels is what a CImage holds
      before it is created. */
  type Image = b: Bitmap | b.Valid() witness Bitmap(0, 0, [])

  const Blank: Image := Bitmap(0, 0, [])

  /** CImage::GetPixel. */
  function GetPixel(image: Image, x: nat, y: nat): ColorRef
    requires x < image.width && y < image.height
  {
    image.pixels[x][y]
  }

  /** Every pixel has the colour of pixel (0, 0). A 1x1 image, and an image
      with no pixels at all, is a single colour. */
  predicate SingleColour(image: Image) {
    forall x, y :: 0 <= x < image.width && 0 <= y < image.height ==>
      image.pixels[x][y] == image.pixels[0][0]
  }

  /** A bitmap sized as CaptureBrowser creates it: the dimensions of the
      content window, or no pixels at all when CImage::Create refuses those
      dimensions. */
  predicate FitsWindow(image: Image, content: Rect) {
    var size := GetWindowDimensions(content);
    image == Blank || (image.width == size.width && image.height == size.height)
  }

  /** A 1x1 image is always a single colour. */
  lemma OnePixelIsSingleColour(image: Image)
    requires image.width == 1 && image.height == 1
    ensures SingleColour(image)
  {
  }

  /** What one call of the window capturer reports: its HRESULT and the
      bitmap it drew. */
  datatype Capture = Capture(hr: HRESULT, image: Image)

  /** What each try of the loop would observe, for a given sequence of
      capturer answers. */
  function Observed(captures: seq<Capture>): (attempts: seq<Attempt>)
    ensures |attempts| == |captures|
    ensures forall k :: 0 <= k < |captures| ==> attempts[k].hr == captures[k].hr
    ensures forall k {:trigger SingleColour(captures[k].image)} :: 0 <= k < |captures| ==>
      attempts[k].singleColour == SingleColour(captures[k].image)
  {
    if captures == [] then []
    else [Attempt(captures[0].hr, SingleColour(captures[0].image))] + Observed(captures[1..])
  }

  /** The response object the command executor hands to the handler. */
  class Response {
    /** Every value set on this response, in order. */
    var sent: seq<ResponseValue>

    constructor ()
      ensures sent == []
    {
      sent := [];
    }

    method SetSuccessResponse(value: string)
      modifies this
      ensures sent == old(sent) + [SuccessResponse(value)]
    {
      sent := sent + [SuccessResponse(value)];
    }

    method SetErrorResponse(status: int, message: string)
      modifies this
      ensures sent == old(sent) + [ErrorResponse(status, message)]
    {
      sent := sent + [ErrorResponse(status, message)];
    }
  }

  class ScreenshotHandler {
    /** The image being worked on; None stands for a NULL pointer. */
    var image_: Option<Image>

    /** How many times the window capturer has been called. */
    ghost var captureCount: nat
    /** How many times the handler has slept, and for how long in all (ms). */
    ghost var sleepCount: nat
    ghost var sleptMs: nat
    /** The images handed to the encoder, in order. */
    ghost var encoderInputs: seq<Image>

    constructor ()
      ensures image_ == None
      ensures captureCount == 0 && sleepCount == 0 && sleptMs == 0 && encoderInputs == []
    {
      image_ := None;
      captureCount := 0;
      sleepCount := 0;
      sleptMs := 0;
      encoderInputs := [];
    }

    /** Releases the image, if there is one. Whatever the state before, the
        image is NULL afterwards, so clearing twice is clearing once. */
    method ClearImage()
      modifies this`image_
      ensures image_ == None
    {
      if image_ != None {
        image_ := None;
      }
    }

    /** `new CImage()`: an image not yet created. The image the pointer held
        before must already have been released, or it would leak. */
    method NewImage()
      requires image_ == None
      modifies this`image_
      ensures image_ == Some(Blank)
    {
      image_ := Some(Blank);
    }

    /** Draws the browser's content window, whose screen rectangle is
        `content`, into an image created with that window's dimensions. The
        capturer's answer is given as `capture`. */
    method CaptureBrowser(content: Rect, capture: Capture) returns (hr: HRESULT)
      requires image_.Some?
      requires FitsWindow(capture.image, content)
      modifies this`image_, this`captureCount
      ensures image_ == Some(capture.image) && hr == capture.hr
      ensures image_.value == Blank ||
              (image_.value.width, image_.value.height) ==
              (GetWindowDimensions(content).width, GetWindowDimensions(content).height)
      ensures captureCount == old(captureCount) + 1
    {
      captureCount := captureCount + 1;
      image_ := Some(capture.image);
      hr := capture.hr;
    }

    /** Blocks for `ms` milliseconds; the model only records the sleep. */
    method Sleep(ms: nat)
      modifies this`sleepCount, this`sleptMs
      ensures sleepCount == old(sleepCount) + 1 && sleptMs == old(sleptMs) + ms
    {
      sleepCount := sleepCount + 1;
      sleptMs := sleptMs + ms;
    }

    /** Whether the image is a single colour: pixel (0, 0) is the reference,
        and the scan gives up at the first pixel that differs from it. */
    method IsSameColour() returns (r: bool)
      requires image_.Some?
      ensures r <==> SingleColour(image_.value)
    {
      var image := image_.value;
      // With no pixels the image was never created and the loops below never
      // compare anything, so the reference colour read here is never used.
      var first := if image.width > 0 && image.height > 0 then GetPixel(image, 0, 0) else ClrInvalid;
      for i := 0 to image.width
        invariant forall x, y :: 0 <= x < i && 0 <= y < image.height ==> image.pixels[x][y] == first
      {
        for j := 0 to image.height
          invariant forall x, y :: 0 <= x < i && 0 <= y < image.height ==> image.pixels[x][y] == first
          invariant forall y :: 0 <= y < j ==> image.pixels[i][y] == first
        {
          if first != GetPixel(image, i, j) {
            return false;
          }
        }
      }
      return true;
    }

    /** Encodes the image as base64 PNG. Returns the HRESULT of the first
        step that fails, and the new value of `data`, which changes only
        when every step succeeds. */
    method GetBase64Data(data: string, steps: EncodeSteps) returns (hr: HRESULT, data': string)
      ensures hr == Base64Status(image_.Some?, steps)
      ensures Failed(hr) ==> data' == data
      ensures !Failed(hr) ==> steps.encoded.Some? && data' == steps.encoded.value
    {
      data' := data;
      ghost var results := StepResults(image_.Some?, steps);
      assert results[1] == steps.createStream && results[2] == steps.save;
      assert results[3] == steps.stat && results[4] == steps.getHGlobal;
      if image_.None? {
        FirstFailingStepWins(results, 0);
        return E_POINTER, data;
      }
      hr := steps.createStream;
      if Failed(hr) {
        FirstFailingStepWins(results, 1);
        return;
      }
      hr := steps.save;
      if Failed(hr) {
        FirstFailingStepWins(results, 2);
        return;
      }
      hr := steps.stat;
      if Failed(hr) {
        FirstFailingStepWins(results, 3);
        return;
      }
      hr := steps.getHGlobal;
      if Failed(hr) {
        FirstFailingStepWins(results, 4);
        return;
      }
      if steps.requiredLength <= 0 {
        FirstFailingStepWins(results, 5);
        return E_FAIL, data;
      }
      if !steps.locked {
        FirstFailingStepWins(results, 6);
        return E_FAIL, data;
      }
      if steps.encoded.None? {
        FirstFailingStepWins(results, 7);
        return E_FAIL, data;
      }
      Base64SucceedsIffEveryStepSucceeds(true, steps);
      data' := steps.encoded.value;
      hr := S_OK;
    }

    /** The capture loop: capture, and while the capture succeeded with a
        single-coloured image, sleep and try again, up to `Tries` times.
        Returns the index of the last try and whether that capture failed; a
        failed capture leaves no image behind, otherwise the image is that
        last capture. */
    method CaptureUntilDistinct(content: Rect, captures: seq<Capture>) returns (failed: bool, last: nat)
      requires Tries <= |captures|
      requires forall k :: 0 <= k < |captures| ==> FitsWindow(captures[k].image, content)
      modifies this`image_, this`captureCount, this`sleepCount, this`sleptMs
      ensures var attempts := Observed(captures);
        && last == StopIndex(attempts, 0)
        && failed == Failed(attempts[last].hr)
        && captureCount == old(captureCount) + last + 1
        && var n := if !failed && attempts[last].singleColour then last + 1 else last;
           sleepCount == old(sleepCount) + n && sleptMs == old(sleptMs) + n * BackoffMs
      ensures failed ==> image_ == None
      ensures !failed ==> image_ == Some(captures[last].image)
    {
      ghost var attempts := Observed(captures);
      var isSameColour := true;
      var i := 0;
      var tries := Tries;
      while i == 0 || (i < tries && isSameColour)
        invariant 0 <= i <= tries
        invariant forall m :: 0 <= m < i - 1 ==> Retried(attempts[m])
        invariant i > 0 ==> !Failed(attempts[i - 1].hr) && isSameColour == attempts[i - 1].singleColour
        invariant i > 0 ==> image_ == Some(captures[i - 1].image)
        invariant captureCount == old(captureCount) + i
        invariant var n := if i > 0 && !isSameColour then i - 1 else i;
          sleepCount == old(sleepCount) + n && sleptMs == old(sleptMs) + n * BackoffMs
        decreases tries - i
      {
        ClearImage();
        NewImage();
        var hr := CaptureBrowser(content, captures[i]);
        if Failed(hr) {
          ClearImage();
          StopIndexIsUnique(attempts, i);
          return true, i;
        }

        isSameColour := IsSameColour();
        if isSameColour {
          Sleep(BackoffMs);
        }
        i := i + 1;
      }
      StopIndexIsUnique(attempts, i - 1);
      return false, i - 1;
    }

    /** Runs the screenshot command. `status` is what GetCurrentBrowser
        reports, `content` the browser's content window rectangle, `captures` what the capturer reports on each try (one answer
        per try the budget allows), `steps` what the encoding calls report.
        The command follows the plan `Expected`: it sets exactly one response,
        and once the browser is found it leaves no image behind. */
    method ExecuteInternal(status: int, content: Rect, captures: seq<Capture>, steps: EncodeSteps, response: Response)
      requires Tries <= |captures|
      requires forall k :: 0 <= k < |captures| ==> FitsWindow(captures[k].image, content)
      modifies this, response
      ensures var o := Expected(status, Observed(captures), steps);
        && captureCount == old(captureCount) + o.captures
        && sleepCount == old(sleepCount) + o.sleeps
        && sleptMs == old(sleptMs) + o.sleeps * BackoffMs
        && encoderInputs == old(encoderInputs) + (if o.encoded.Some? then [captures[o.encoded.value].image] else [])
        && response.sent == old(response.sent) + [o.response]
      ensures status == WdSuccess ==> image_ == None
      ensures status != WdSuccess ==> image_ == old(image_)
    {
      if status != WdSuccess {
        response.SetErrorResponse(status, "Unable to get browser");
        return;
      }

      var failed, last := CaptureUntilDistinct(content, captures);
      if failed {
        response.SetSuccessResponse("");
        return;
      }

      // Either a capture with more than one colour, or the last single-coloured one.
      var base64Screenshot := "";
      encoderInputs := encoderInputs + [image_.value];
      var hr;
      hr, base64Screenshot := GetBase64Data(base64Screenshot, steps);
      if Failed(hr) {
        ClearImage();
        response.SetSuccessResponse("");
        return;
      }

      ClearImage();
      response.SetSuccessResponse(base64Screenshot);
    }
  }
}
