/**
 * `adjust_brightness` (src/imageProcessing.py), the only filter of the chain
 * with integer semantics. An image is its pixel values flattened into one
 * sequence; the shape plays no part in an elementwise operation.
 */
module ImageProcessing {

  const Int16Min: int := -0x8000
  const Int16Max: int := 0x7fff

  predicate IsInt16(x: int) { Int16Min <= x <= Int16Max }

  /** NumPy's conversion to `int16` keeps the low 16 bits (two's complement). */
  function AsInt16(x: int): (r: int)
    ensures IsInt16(r)
    ensures IsInt16(x) ==> r == x
    ensures (r - x) % 0x1_0000 == 0
  {
    (x - Int16Min) % 0x1_0000 + Int16Min
  }

  /** `np.clip(x, 0, 255)` */
  function Clip(x: int): (r: int)
    ensures 0 <= r <= 255
    ensures 0 <= x <= 255 ==> r == x
    ensures x > 255 ==> r == 255
    ensures x < 0 ==> r == 0
  {
    if x < 0 then 0 else if x > 255 then 255 else x
  }

  /**
   * One pixel: widened to `int16`, the offset added in `int16` arithmetic
   * (which wraps), clipped to [0, 255] and narrowed back to `uint8`, which is
   * exact after the clip.
   */
  function BrightPixel(x: int, value: int): (y: int)
    requires IsInt16(value)
    ensures 0 <= y <= 255
    // an 8-bit pixel whose sum stays in range moves by exactly `value`
    ensures 0 <= x <= 255 && 0 <= x + value <= 255 ==> y == x + value
    // sums past either end saturate, as long as int16 does not wrap
    ensures 0 <= x <= 255 && 255 < x + value <= Int16Max ==> y == 255
    ensures 0 <= x <= 255 && x + value < 0 ==> y == 0
  {
    Clip(AsInt16(AsInt16(x) + value))
  }

  /**
   * `adjust_brightness(img, value=20)`. Under NumPy 2 an offset that does not
   * fit in `int16` raises OverflowError, hence the requires.
   */
  function AdjustBrightness(img: seq<int>, value: int := 20): (bright: seq<int>)
    requires IsInt16(value)
    ensures |bright| == |img|
    ensures forall i :: 0 <= i < |img| ==> bright[i] == BrightPixel(img[i], value)
  {
    seq(|img|, i requires 0 <= i < |img| => BrightPixel(img[i], value))
  }

  /** Every output pixel of `adjust_brightness` is a valid 8-bit value. */
  lemma BrightnessInRange(img: seq<int>, value: int)
    requires IsInt16(value)
    ensures forall i :: 0 <= i < |img| ==> 0 <= AdjustBrightness(img, value)[i] <= 255
  {
  }

  /**
   * A sum above `int16`'s range wraps to a negative number and the pixel turns
   * black: for example a white pixel plus 32767.
   */
  lemma {:induction false} WrapAroundTurnsBlack(x: int, value: int)
    requires 0 <= x <= 255 && IsInt16(value) && x + value > Int16Max
    ensures BrightPixel(x, value) == 0
  {
    assert AsInt16(x + value) == x + value - 0x1_0000 by {
      var r := x + value - 0x1_0000;
      assert (x + value - Int16Min) % 0x1_0000 == r - Int16Min by {
        assert x + value - Int16Min == 0x1_0000 + (r - Int16Min);
      }
    }
  }

  lemma WhitePlusMaxIsBlack()
    ensures BrightPixel(255, Int16Max) == 0
  {
    WrapAroundTurnsBlack(255, Int16Max);
  }

  /** The largest offset for which no 8-bit pixel can wrap. */
  const NoWrapBound: int := Int16Max - 255

  /**
   * Brightening is monotone on 8-bit images: a pixel that is at least as
   * bright as another stays at least as bright, as long as int16 cannot wrap.
   */
  lemma {:induction false} BrightnessMonotone(a: seq<int>, b: seq<int>, value: int)
    requires |a| == |b| && IsInt16(value) && value <= NoWrapBound
    requires forall i :: 0 <= i < |a| ==> 0 <= a[i] <= b[i] <= 255
    ensures forall i :: 0 <= i < |a| ==> AdjustBrightness(a, value)[i] <= AdjustBrightness(b, value)[i]
  {
    forall i | 0 <= i < |a|
      ensures AdjustBrightness(a, value)[i] <= AdjustBrightness(b, value)[i]
    {
      assert BrightPixel(a[i], value) == Clip(a[i] + value);
      assert BrightPixel(b[i], value) == Clip(b[i] + value);
    }
  }

  /** With offset 0, an 8-bit image is returned unchanged. */
  lemma {:induction false} ZeroOffsetIsIdentity(img: seq<int>)
    requires forall i :: 0 <= i < |img| ==> 0 <= img[i] <= 255
    ensures AdjustBrightness(img, 0) == img
  {
    var r := AdjustBrightness(img, 0);
    assert |r| == |img|;
    forall i | 0 <= i < |img| ensures r[i] == img[i] {
      assert BrightPixel(img[i], 0) == img[i];
    }
  }

  /** The default offset is 20: a mid-grey 100 becomes 120 and 240 saturates at 255. */
  lemma DefaultOffsetExamples()
    ensures AdjustBrightness([100, 240, 0]) == [120, 255, 20]
  {
    var r := AdjustBrightness([100, 240, 0]);
    assert r[0] == 120 && r[1] == 255 && r[2] == 20;
  }
}
