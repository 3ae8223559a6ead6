/** The integer stages of three film grades of video_vintage.py. Each one runs
    on the int16 array of an image its PIL adjustments (contrast, brightness,
    colour, Gaussian softening) have already produced: that image is the
    `enhanced` input here. The stage adds a per-channel shift in place, clips
    to [0, 255] and adds grain. Values stay within [-70, 295], so int16 never
    wraps in the shift. */
module Grades {
  import opened Frames
  import opened Effects

  // ---------------------------------------------------------------------------
  // Per-pixel shifts
  // ---------------------------------------------------------------------------

  /** Portra 800: R + 19, G + 10, B - 33. On an 8-bit pixel the int16 sums
      are exact. */
  function PortraShift(p: Rgb): (q: Rgb)
    ensures ValidRgb(p) ==> Int16Rgb(q) == q
  {
    AddRgb(p, Rgb(19, 10, -33))
  }

  /** Reala Ace: R - 11, G + 10, B + 11. */
  function RealaShift(p: Rgb): (q: Rgb)
    ensures ValidRgb(p) ==> Int16Rgb(q) == q
  {
    AddRgb(p, Rgb(-11, 10, 11))
  }

  /** The terracotta "blue cast" mask: blue exceeds the floor mean of red and
      green by more than 30. */
  predicate BlueCast(p: Rgb)
  {
    p.b > (p.r + p.g) / 2 + 30
  }

  /** Terracotta Sun: (15, -10, -70) on blue-cast pixels, (40, -5, -35)
      elsewhere. The mask is computed before any channel moves. */
  function TerracottaShift(p: Rgb): (q: Rgb)
    ensures ValidRgb(p) ==> Int16Rgb(q) == q
  {
    if BlueCast(p) then AddRgb(p, Rgb(15, -10, -70)) else AddRgb(p, Rgb(40, -5, -35))
  }

  /** The shift of a grade, then np.clip(arr, 0, 255).astype(np.uint8). */
  function Graded(f: Frame, shift: Rgb -> Rgb): (out: Frame)
    ensures ValidFrame(out)
    ensures |out| == |f| && forall y :: 0 <= y < |f| ==> |out[y]| == |f[y]|
  {
    ClipFrame(MapFrame(f, shift))
  }

  function Min(a: int, b: int): int { if a <= b then a else b }
  function Max(a: int, b: int): int { if a <= b then b else a }

  // ---------------------------------------------------------------------------
  // What each stage does to one 8-bit pixel
  // ---------------------------------------------------------------------------

  /** Portra on an 8-bit pixel saturates red and green at 255 and floors blue
      at 0. */
  lemma PortraPixel(p: Rgb)
    requires ValidRgb(p)
    ensures ClipRgb(PortraShift(p)) == Rgb(Min(p.r + 19, 255), Min(p.g + 10, 255), Max(p.b - 33, 0))
  {
  }

  /** Reala on an 8-bit pixel floors red at 0 and saturates green and blue. */
  lemma RealaPixel(p: Rgb)
    requires ValidRgb(p)
    ensures ClipRgb(RealaShift(p)) == Rgb(Max(p.r - 11, 0), Min(p.g + 10, 255), Min(p.b + 11, 255))
  {
  }

  /** Terracotta on an 8-bit pixel: the cool shift on a blue-cast pixel, the
      warm one otherwise; either way red never drops and green and blue never
      rise, and a blue-cast pixel loses at least as much blue as the warm
      shift would take. */
  lemma TerracottaPixel(p: Rgb)
    requires ValidRgb(p)
    ensures BlueCast(p) ==>
      ClipRgb(TerracottaShift(p)) == Rgb(Min(p.r + 15, 255), Max(p.g - 10, 0), Max(p.b - 70, 0))
    ensures !BlueCast(p) ==>
      ClipRgb(TerracottaShift(p)) == Rgb(Min(p.r + 40, 255), Max(p.g - 5, 0), Max(p.b - 35, 0))
    ensures var q := ClipRgb(TerracottaShift(p)); q.r >= p.r && q.g <= p.g && q.b <= p.b
    ensures BlueCast(p) ==> ClipRgb(TerracottaShift(p)).b <= Max(p.b - 35, 0)
  {
  }

  /** The mask alone does not show in the output: a saturated red pixel with
      little green and blue comes out the same under both shifts. */
  lemma TerracottaShiftsMeet()
    ensures !BlueCast(Rgb(250, 0, 10))
    ensures ClipRgb(TerracottaShift(Rgb(250, 0, 10))) == ClipRgb(AddRgb(Rgb(250, 0, 10), Rgb(15, -10, -70)))
  {
  }

  /** A white pixel under Portra comes out (255, 255, 222). */
  lemma PortraWhite()
    ensures ClipRgb(PortraShift(Rgb(255, 255, 255))) == Rgb(255, 255, 222)
  {
  }

  /** Every pixel of a graded frame is the clipped shift of the same pixel. */
  lemma GradedAt(f: Frame, shift: Rgb -> Rgb, y: int, x: int)
    requires 0 <= y < |f| && 0 <= x < |f[y]|
    ensures Graded(f, shift)[y][x] == ClipRgb(shift(f[y][x]))
  {
  }

  // ---------------------------------------------------------------------------
  // The stages, on the int16 array
  // ---------------------------------------------------------------------------

  /** np.array(img, dtype=np.int16), the shift in place, the clip and the grain
      of the given amount, drawn as `noise`. */
  method GradeStage(enhanced: Frame, h: nat, w: nat, shift: Rgb -> Rgb, amount: int, noise: Frame)
    returns (out: Frame)
    requires IsFrame(enhanced, h, w) && ValidFrame(enhanced)
    requires 0 < amount <= 32767 && IsFrame(noise, h, w) && NoiseWithin(noise, amount)
    ensures out == AddNoise(Graded(enhanced, shift), amount, noise)
    ensures IsFrame(out, h, w) && ValidFrame(out)
  {
    var a := ToArray(enhanced, h, w);
    MapInPlace(a, shift);
    var clipped := ClipFrame(Grid(a));
    assert Rectangular(clipped) by {
      assert IsFrame(clipped, h, w);
    }
    out := AddNoise(clipped, amount, noise);
  }

  /** apply_filter_portra_800_sim after its PIL adjustments: grain amount 15. */
  method PortraSim(enhanced: Frame, h: nat, w: nat, noise: Frame) returns (out: Frame)
    requires IsFrame(enhanced, h, w) && ValidFrame(enhanced)
    requires IsFrame(noise, h, w) && NoiseWithin(noise, 15)
    ensures out == AddNoise(Graded(enhanced, PortraShift), 15, noise)
    ensures IsFrame(out, h, w) && ValidFrame(out)
  {
    out := GradeStage(enhanced, h, w, PortraShift, 15, noise);
  }

  /** apply_filter_reala_ace_sim after its PIL adjustments: grain amount 5. */
  method RealaSim(enhanced: Frame, h: nat, w: nat, noise: Frame) returns (out: Frame)
    requires IsFrame(enhanced, h, w) && ValidFrame(enhanced)
    requires IsFrame(noise, h, w) && NoiseWithin(noise, 5)
    ensures out == AddNoise(Graded(enhanced, RealaShift), 5, noise)
    ensures IsFrame(out, h, w) && ValidFrame(out)
  {
    out := GradeStage(enhanced, h, w, RealaShift, 5, noise);
  }

  /** apply_filter_terracotta_sun_sim after its PIL adjustments: grain amount 5. */
  method TerracottaSim(enhanced: Frame, h: nat, w: nat, noise: Frame) returns (out: Frame)
    requires IsFrame(enhanced, h, w) && ValidFrame(enhanced)
    requires IsFrame(noise, h, w) && NoiseWithin(noise, 5)
    ensures out == AddNoise(Graded(enhanced, TerracottaShift), 5, noise)
    ensures IsFrame(out, h, w) && ValidFrame(out)
  {
    out := GradeStage(enhanced, h, w, TerracottaShift, 5, noise);
  }

  /** With an all-zero grain field a stage's output is its clipped shift. */
  lemma {:induction false} QuietGrainIsGrade(enhanced: Frame, h: nat, w: nat, shift: Rgb -> Rgb, amount: int, noise: Frame)
    requires IsFrame(enhanced, h, w)
    requires 0 < amount <= 32767 && IsFrame(noise, h, w) && NoiseWithin(noise, 0)
    ensures AddNoise(Graded(enhanced, shift), amount, noise) == Graded(enhanced, shift)
  {
    var g := Graded(enhanced, shift);
    assert IsFrame(g, h, w);
    ZeroNoiseIsIdentity(g, amount, noise);
  }
}
