/** The small piece of the Win32 vocabulary the screenshot handler relies on:
    signed 32-bit HRESULTs and the FAILED test, COLORREF pixel values and an
    Option type standing for the handler's nullable image pointer. */
module Win32 {

  datatype Option<+T> = None | Some(value: T)

  /** A C++ `int` / `LONG`: a signed 32-bit integer. */
  type Int32 = x: int | -0x8000_0000 <= x < 0x8000_0000

  /** A COM status code. Negative values (severity bit set) are failures. */
  type HRESULT = Int32

  const S_OK: HRESULT := 0
  /** 0x80004003, read as a signed 32-bit value. */
  const E_POINTER: HRESULT := 0x8000_4003 - 0x1_0000_0000
  /** 0x80004005, read as a signed 32-bit value. */
  const E_FAIL: HRESULT := 0x8000_4005 - 0x1_0000_0000

  /** The FAILED(hr) macro: the severity bit is set. */
  predicate Failed(hr: HRESULT) {
    hr < 0
  }

  /** A COLORREF: an unsigned 32-bit colour value. */
  type ColorRef = x: int | 0 <= x < 0x1_0000_0000

  /** CLR_INVALID (0xFFFFFFFF): what ::GetPixel reports for a pixel it cannot read. */
  const ClrInvalid: ColorRef := 0xFFFF_FFFF
}
