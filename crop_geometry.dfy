/** The 9:16 reframing arithmetic of `crop_to_9x16` (app.py): from the source
    frame's width W and height h it picks the horizontal window [x1, x2) that
    the clip is cropped to. All quantities are non-negative pixel counts, so
    Python's `//` and `int(h * 9 / 16)` are Dafny's `/` on naturals. */
module CropGeometry {

  /** The horizontal crop window, in source pixels. */
  datatype CropWindow = CropWindow(x1: int, x2: int)

  function Max(a: int, b: int): int { if a >= b then a else b }
  function Min(a: int, b: int): int { if a <= b then a else b }

  /** w: the width a 9:16 window of height h would have, truncated. */
  function TargetWidth(height: nat): nat { height * 9 / 16 }

  /** x_center: the middle column of the frame. */
  function CenterX(width: nat): nat { width / 2 }

  /** w // 2: how far the window reaches on each side of the centre. */
  function HalfWidth(height: nat): nat { TargetWidth(height) / 2 }

  /** The window of app.py: centred on x_center, each edge clamped to the frame
      on its own. It is always a well-formed window inside the frame, and never
      wider than the even part of w. */
  function CropWindowOf(width: nat, height: nat): (c: CropWindow)
    ensures 0 <= c.x1 <= c.x2 <= width
    ensures c.x2 - c.x1 <= 2 * HalfWidth(height) <= TargetWidth(height)
  {
    var w := TargetWidth(height);
    var xCenter := width / 2;
    CropWindow(Max(0, xCenter - w / 2), Min(width, xCenter + w / 2))
  }

  /** The window has its full width 2*(w//2) exactly when neither clamp fires. */
  lemma FullWidthIffUnclamped(width: nat, height: nat)
    ensures var c := CropWindowOf(width, height);
      c.x2 - c.x1 == 2 * HalfWidth(height) <==>
      HalfWidth(height) <= CenterX(width) && CenterX(width) + HalfWidth(height) <= width
  {
  }

  /** Unclamped, the window is symmetric about x_center, and it falls short of
      w by exactly one pixel when w is odd. */
  lemma UnclampedIsCentred(width: nat, height: nat)
    requires HalfWidth(height) <= CenterX(width)
    ensures var c := CropWindowOf(width, height);
      CenterX(width) - c.x1 == c.x2 - CenterX(width) == HalfWidth(height) &&
      TargetWidth(height) - (c.x2 - c.x1) == TargetWidth(height) % 2
  {
  }

  /** The right edge never clamps unless the left one does, because x_center is
      at most W - x_center. So the window is either the centred one or, when the
      half-width w // 2 exceeds x_center, the whole frame. */
  lemma RightClampNeedsLeftClamp(width: nat, height: nat)
    ensures CenterX(width) + HalfWidth(height) > width ==> HalfWidth(height) > CenterX(width)
    ensures HalfWidth(height) > CenterX(width) ==> CropWindowOf(width, height) == CropWindow(0, width)
  {
  }

  /** Each edge clamps on its own, with no symmetric shrink: for an odd-width
      frame with w // 2 > x_center the window is [0, W], one column longer
      to the right of x_center than to its left. */
  lemma IndependentClampIsAsymmetric(width: nat, height: nat)
    requires width % 2 == 1 && HalfWidth(height) > CenterX(width)
    ensures var c := CropWindowOf(width, height);
      c.x2 - CenterX(width) == CenterX(width) - c.x1 + 1
  {
    RightClampNeedsLeftClamp(width, height);
  }

  /** A 1920x1080 landscape frame: w = 607, and the window [657, 1263) is 606
      columns wide. */
  lemma LandscapeFullHd()
    ensures TargetWidth(1080) == 607
    ensures CropWindowOf(1920, 1080) == CropWindow(657, 1263)
  {
  }

  /** Being narrower than 9:16 is not what triggers the clamp: a 1081x1923
      frame is narrower, yet w // 2 == x_center and the window is the centred
      [0, 1080), one column short of the frame. */
  lemma NarrowFrameCentred()
    ensures 1081 * 16 < 1923 * 9
    ensures HalfWidth(1923) == CenterX(1081)
    ensures CropWindowOf(1081, 1923) == CropWindow(0, 1080)
  {
  }

  /** A 1080x1920 portrait frame is already 9:16: the window is the whole frame. */
  lemma PortraitFullHd()
    ensures CropWindowOf(1080, 1920) == CropWindow(0, 1080)
  {
  }
}
