// Window placement along the bottom of the screen under the cursor:
// the x clamp and the y offset shared by the startup snap and the per-tick follow.

module Geometry {

  /** Gap, in pixels, between the sprite's lower edge and the bottom of the available area. */
  const BOTTOM_MARGIN: int := 6

  /** The available (taskbar-free) rectangle of the screen the host picked for the cursor. */
  datatype Screen = Screen(left: int, right: int, bottom: int)

  function Max(a: int, b: int): int { if a < b then b else a }

  function Min(a: int, b: int): int { if a < b then a else b }

  /** Window x: centre the window of width w on the cursor, then clamp it to the screen. */
  function TargetX(cursorX: int, w: nat, left: int, right: int): (x: int)
    ensures x >= left
    ensures right - w >= left ==> x <= right - w
    ensures left <= cursorX - w / 2 <= right - w ==> x == cursorX - w / 2
    ensures cursorX - w / 2 <= left ==> x == left
    ensures left <= right - w <= cursorX - w / 2 ==> x == right - w
    ensures right - w < left ==> x == left
  {
    Max(left, Min(cursorX - w / 2, right - w))
  }

  /** Window y: the window's lower edge sits BOTTOM_MARGIN above the available bottom. */
  function TargetY(bottom: int, h: nat): (y: int)
    ensures y + h + BOTTOM_MARGIN == bottom
  {
    bottom - h - BOTTOM_MARGIN
  }
}
