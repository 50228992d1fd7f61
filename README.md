# Screenshot command handler of the Internet Explorer driver

This project models the screenshot command handler of the Internet Explorer
WebDriver server (`cpp/iedriver/CommandHandlers/ScreenshotCommandHandler.h`)
and proves properties of the model in Dafny.

The handler does the following:

1. It looks up the current browser. If the lookup fails, it answers with an error response.
2. It captures the browser's content window into an image, and repeats the capture while the image is a single colour. It tries at most four times and sleeps 2000 ms after every single-coloured capture.
3. It encodes the image it kept as base64 PNG and answers with that text.
4. A failed capture or a failed encoding is answered with an empty success response.

Modules:

- `Win32` (`win32.dfy`) holds the small part of the Win32 vocabulary the handler uses:
  - signed 32-bit `HRESULT`s and `FAILED`;
  - `S_OK`, `E_POINTER` and `E_FAIL`;
  - `COLORREF` and `CLR_INVALID`;
  - an `Option` type for the nullable image pointer.
- `WindowGeometry` (`geometry.dfy`) holds `GetWindowDimensions` and `GetBrowserChromeDimensions`. A window is the rectangle `::GetWindowRect` reports for it.
- `EncodingSteps` (`encoding.dfy`) holds the error sequencing of `GetBase64Data`. Each foreign call is represented by the result it reports. The first failing step decides the HRESULT.
- `CapturePlan` (`capture_plan.dfy`) gives the declarative plan of one command, the function `Expected`. The plan fixes:
  - how many captures and sleeps happen;
  - which capture is encoded;
  - which response is sent.

  The lemmas in this module say what the plan means.
- `ScreenshotCommandHandler` (`handler.dfy`) is the handler itself. It is a class that holds the nullable image and uses these operations:
  - `ClearImage`, `CaptureBrowser`, `IsSameColour` and `GetBase64Data`;
  - the retry loop, as `CaptureUntilDistinct`;
  - `ExecuteInternal`.

  `ExecuteInternal` is proved to follow `Expected`.

The outside world is passed in as arguments:

- the status of the browser lookup;
- the screen rectangle of the browser's content window;
- the capturer's answer for each try: an HRESULT and a bitmap;
- what each encoding call reports.

Ghost counters on the handler record what the handler asked of the outside world:

- the number of captures;
- the number of sleeps and the total time slept;
- the images handed to the encoder.

A `Response` object records every value set on it.

## Model

| member | source | states |
|---|---|---|
| WindowGeometry.GetWindowDimensions | cpp/iedriver/CommandHandlers/ScreenshotCommandHandler.h:250-255 | The left edge plus the width gives the right edge, and the top edge plus the height gives the bottom edge. The width is non-negative exactly when the rectangle is not inverted horizontally; the same holds for the height vertically. |
| WindowGeometry.DimensionsIgnorePosition | cpp/iedriver/CommandHandlers/ScreenshotCommandHandler.h:250-255 | Moving a window does not change its dimensions. |
| WindowGeometry.GetBrowserChromeDimensions | cpp/iedriver/CommandHandlers/ScreenshotCommandHandler.h:224-248 | The content size plus the chrome size gives back the top-level window's size. The chrome is never negative when the content window lies inside the top-level window. |
| WindowGeometry.NoChromeAroundFullWindow | cpp/iedriver/CommandHandlers/ScreenshotCommandHandler.h:224-248 | A content window equal to its top-level window leaves a chrome of size zero. |
| EncodingSteps.FirstFailure | cpp/iedriver/CommandHandlers/ScreenshotCommandHandler.h:150-221 | The chain fails exactly when some step fails. On failure it returns the HRESULT of a failing step that comes after only successful steps; otherwise it returns S_OK. |
| EncodingSteps.FirstFailingStepWins | cpp/iedriver/CommandHandlers/ScreenshotCommandHandler.h:150-221 | The earliest failing step decides the chain's status, whatever the later steps report. |
| EncodingSteps.Base64SucceedsIffEveryStepSucceeds | cpp/iedriver/CommandHandlers/ScreenshotCommandHandler.h:153-221 | The encoding succeeds exactly when all of the following hold: there is an image; the four stream calls succeed; the required length is positive; the lock is obtained; and the encoder succeeds. |
| EncodingSteps.NullImageIsPointerError | cpp/iedriver/CommandHandlers/ScreenshotCommandHandler.h:153-156 | With no image, the result is E_POINTER, whatever the other steps would report. |
| EncodingSteps.LateFailuresAreGenericFailures | cpp/iedriver/CommandHandlers/ScreenshotCommandHandler.h:191-214 | Assume the stream calls succeed. Then a non-positive required length, a failed lock or a failed encoder each give E_FAIL. |
| CapturePlan.StopIndex | cpp/iedriver/CommandHandlers/ScreenshotCommandHandler.h:59-82 | The last try is the first one that fails or is not a single colour, or else the fourth. Every earlier try succeeded with a single-coloured image. |
| CapturePlan.StopIndexIsUnique | cpp/iedriver/CommandHandlers/ScreenshotCommandHandler.h:59-82 | Any try meeting that description is the last try. |
| CapturePlan.Expected | cpp/iedriver/CommandHandlers/ScreenshotCommandHandler.h:47-96 | There are at most four captures and never more sleeps than captures. The encoded capture, when there is one, is the last one taken. |
| CapturePlan.BrowserLookupFailure | cpp/iedriver/CommandHandlers/ScreenshotCommandHandler.h:52-57 | A failed browser lookup answers with an error response that carries the lookup's status and the message "Unable to get browser". Nothing is captured, slept or encoded. |
| CapturePlan.ErrorOnlyForBrowserLookup | cpp/iedriver/CommandHandlers/ScreenshotCommandHandler.h:52-96 | The response is an error response exactly when the browser lookup failed. |
| CapturePlan.CaptureCountBounds | cpp/iedriver/CommandHandlers/ScreenshotCommandHandler.h:59-82 | Once the browser is found, the do-while loop captures at least once and at most four times. |
| CapturePlan.EncodedCaptureIsFirstAccepted | cpp/iedriver/CommandHandlers/ScreenshotCommandHandler.h:59-86 | Capture k is encoded exactly when all of the following hold: the browser was found; every earlier try succeeded with a single-coloured image; capture k succeeded; and capture k is not a single colour or is the fourth. |
| CapturePlan.FailedCaptureAbortsCommand | cpp/iedriver/CommandHandlers/ScreenshotCommandHandler.h:67-73 | A failed capture ends the command at once. Nothing is encoded, the response is an empty success response, and there is one sleep per earlier try. |
| CapturePlan.CountSingleColourOfRetried | cpp/iedriver/CommandHandlers/ScreenshotCommandHandler.h:75-79 | A run of successful single-coloured tries counts one such try per element. |
| CapturePlan.SleepsCountSingleColourCaptures | cpp/iedriver/CommandHandlers/ScreenshotCommandHandler.h:75-79 | The number of 2000 ms sleeps equals the number of successful single-coloured captures taken. |
| CapturePlan.AlwaysSingleColourTarget | cpp/iedriver/CommandHandlers/ScreenshotCommandHandler.h:59-86 | A target that is a single colour on every try gives four captures and four sleeps, counting the sleep after the last capture. The fourth capture is then encoded. |
| CapturePlan.FirstDistinctCaptureIsKept | cpp/iedriver/CommandHandlers/ScreenshotCommandHandler.h:59-86 | A first capture with more than one colour is encoded, with no retry and no sleep. |
| CapturePlan.KeptCaptureOutcome | cpp/iedriver/CommandHandlers/ScreenshotCommandHandler.h:59-95 | When capture k is the one kept, this gives the exact outcome: k+1 captures; k+1 sleeps if capture k is a single colour, otherwise k; capture k is encoded; and the response follows the encoding result. |
| CapturePlan.EncodedResponse | cpp/iedriver/CommandHandlers/ScreenshotCommandHandler.h:85-95 | After a capture is encoded, the response carries the encoder's text when every encoding step succeeds, and the empty string otherwise. |
| CapturePlan.ShownCapturerNeverAborts | cpp/iedriver/CommandHandlers/ScreenshotCommandHandler.h:133 | CaptureBrowser as written always returns S_OK. With that capturer, the failed-capture path is never taken and some capture is always encoded. |
| ScreenshotCommandHandler.ScreenshotHandler.constructor | cpp/iedriver/CommandHandlers/ScreenshotCommandHandler.h:39-41 | A new handler holds no image. |
| ScreenshotCommandHandler.ScreenshotHandler.ClearImage | cpp/iedriver/CommandHandlers/ScreenshotCommandHandler.h:101-106 | Whatever the state before, the image is NULL afterwards, so clearing is idempotent. No other field changes. |
| ScreenshotCommandHandler.ScreenshotHandler.NewImage | cpp/iedriver/CommandHandlers/ScreenshotCommandHandler.h:64-66 | A new, not yet created image is allocated only once the previous one has been released, so no image leaks between tries. |
| ScreenshotCommandHandler.ScreenshotHandler.CaptureBrowser | cpp/iedriver/CommandHandlers/ScreenshotCommandHandler.h:108-134 | The image becomes the capturer's bitmap and the capturer's HRESULT is returned. The bitmap has the dimensions of the content window (GetWindowDimensions), or no pixels when it could not be created. One more capture is counted. |
| ScreenshotCommandHandler.ScreenshotHandler.IsSameColour | cpp/iedriver/CommandHandlers/ScreenshotCommandHandler.h:136-148 | The scan returns true exactly when every pixel has the colour of pixel (0, 0). An image with no pixels counts as a single colour. |
| ScreenshotCommandHandler.OnePixelIsSingleColour | cpp/iedriver/CommandHandlers/ScreenshotCommandHandler.h:136-148 | A 1x1 image is always a single colour. |
| ScreenshotCommandHandler.ScreenshotHandler.GetBase64Data | cpp/iedriver/CommandHandlers/ScreenshotCommandHandler.h:150-222 | The HRESULT is that of the first failing step, or S_OK. On failure, `data` is unchanged. On success, `data` becomes the encoder's text. |
| ScreenshotCommandHandler.ScreenshotHandler.CaptureUntilDistinct | cpp/iedriver/CommandHandlers/ScreenshotCommandHandler.h:59-82 | Every try releases the previous image before allocating a new one. The loop stops at the plan's last try. It has taken one capture per try up to and including that one. It has slept once per successful single-coloured capture. It holds the last capture's image, or no image if that capture failed. |
| ScreenshotCommandHandler.ScreenshotHandler.ExecuteInternal | cpp/iedriver/CommandHandlers/ScreenshotCommandHandler.h:47-96 | The command follows `Expected`: the number of captures, the number of sleeps, the total time slept, the image handed to the encoder and the single response sent. Once the browser is found, no image is left behind. |

## Left out

- The command executor's `GetCurrentBrowser` and the calls into Windows, ATL and GDI+ are not modelled. The latter cover `::GetWindowRect`, `CImage::Create`, `::PrintWindow`, `CreateStreamOnHGlobal`, `CImage::Save`, `IStream::Stat`, `GetHGlobalFromStream`, `Base64EncodeGetRequiredLength`, `GlobalLock` and `Base64Encode`. Each is replaced by the value it reports, passed in as an argument.
- PNG encoding and base64 encoding themselves are not modelled; the encoder's text is an argument.
- The truncating cast of the stream size to `int` (line 188) is not modelled. Only the required-length check that follows it is modelled.
- `GlobalUnlock` and `delete[]` (lines 200, 210-211, 218-219) are not modelled; they change nothing the handler can observe.
- The shared data segment (lines 24-33) is not used by the handler and is not modelled.
- Logging is not modelled.
- `::Sleep(2000)` is recorded as a count and a total duration; no time passes.
- WindowGeometry.GetWindowDimensions: the subtraction is on unbounded integers, so a `LONG` overflow on extreme rectangles is not modelled.
- WindowGeometry.GetBrowserChromeDimensions: the subtractions at lines 246-247 are on unbounded integers. Its non-negativity under containment therefore does not account for the `int` wrap-around that extreme rectangles could cause.
- CaptureBrowser: the pixels `::PrintWindow` draws are the capturer's answer. A failed `CImage::Create` shows only as a bitmap with no pixels, and a failed `::PrintWindow` is not told apart from a successful one; the code logs and ignores both (lines 120-130). The model accepts any HRESULT from the capturer, as the caller checks it. ShownCapturerNeverAborts covers the code's constant S_OK.
- Pixel buffers are immutable grid values. Drawing into a `CImage` in place, and `GetDC`/`ReleaseDC`, are not modelled.
- ExecuteInternal: it requires an answer for each of the four tries the budget allows, and every answer's bitmap must be sized for the content window (FitsWindow), as CImage::Create at lines 117-119 sizes it. Both are consistency conditions on the argument standing for the capturer, not demands on callers. The content window's rectangle is one argument, so a window resized between tries is not modelled.
- The Java test `ServerSpecificTests.java` is only a test-suite listing and is not modelled.
- Sleeps: the handler sleeps after every single-coloured capture, including the fourth, after which no capture follows. An always-single-coloured window therefore costs four sleeps, not three. The model follows the code.
