/** Window geometry: the size of a window from its screen rectangle, and the
    size of the browser chrome as the difference between the top-level window
    and the content window. ::GetWindowRect is the outside world here, so a
    window is represented by the rectangle that call reports for it. */
module WindowGeometry {
  import opened Win32

  /** A RECT in screen coordinates, as ::GetWindowRect fills it in. */
  datatype Rect = Rect(left: Int32, top: Int32, right: Int32, bottom: Int32)

  datatype Size = Size(width: int, height: int)

  /** The rectangle moved by (dx, dy); used to state that a size does not
      depend on where the window is. */
  function Translate(r: Rect, dx: int, dy: int): Rect
    requires -0x8000_0000 <= r.left + dx < 0x8000_0000 && -0x8000_0000 <= r.right + dx < 0x8000_0000
    requires -0x8000_0000 <= r.top + dy < 0x8000_0000 && -0x8000_0000 <= r.bottom + dy < 0x8000_0000
  {
    Rect(r.left + dx, r.top + dy, r.right + dx, r.bottom + dy)
  }

  /** `inner` lies within `outer` (edges may touch). */
  predicate Contains(outer: Rect, inner: Rect) {
    outer.left <= inner.left && inner.right <= outer.right &&
    outer.top <= inner.top && inner.bottom <= outer.bottom
  }

  /** GetWindowDimensions: the extent of the window rectangle. The width
      spans from the left edge to the right edge, and it is non-negative
      exactly when the rectangle is not inverted. */
  function GetWindowDimensions(r: Rect): (s: Size)
    ensures r.left + s.width == r.right && r.top + s.height == r.bottom
    ensures s.width >= 0 <==> r.left <= r.right
    ensures s.height >= 0 <==> r.top <= r.bottom
  {
    Size(r.right - r.left, r.bottom - r.top)
  }

  /** Moving a window does not change its dimensions. */
  lemma DimensionsIgnorePosition(r: Rect, dx: int, dy: int)
    requires -0x8000_0000 <= r.left + dx < 0x8000_0000 && -0x8000_0000 <= r.right + dx < 0x8000_0000
    requires -0x8000_0000 <= r.top + dy < 0x8000_0000 && -0x8000_0000 <= r.bottom + dy < 0x8000_0000
    ensures GetWindowDimensions(Translate(r, dx, dy)) == GetWindowDimensions(r)
  {
  }

  /** GetBrowserChromeDimensions: what the top-level window adds around the
      content window. Content size plus chrome size gives back the top-level
      size, and when the content window lies inside the top-level window the
      chrome is never negative. */
  function GetBrowserChromeDimensions(topLevel: Rect, content: Rect): (s: Size)
    ensures GetWindowDimensions(content).width + s.width == GetWindowDimensions(topLevel).width
    ensures GetWindowDimensions(content).height + s.height == GetWindowDimensions(topLevel).height
    ensures Contains(topLevel, content) ==> s.width >= 0 && s.height >= 0
  {
    var top := GetWindowDimensions(topLevel);
    var inner := GetWindowDimensions(content);
    Size(top.width - inner.width, top.height - inner.height)
  }

  /** A content window that fills its top-level window leaves no chrome. */
  lemma NoChromeAroundFullWindow(r: Rect)
    ensures GetBrowserChromeDimensions(r, r) == Size(0, 0)
  {
  }
}
