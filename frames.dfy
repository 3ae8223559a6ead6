/** Pixel grids: an H x W frame of RGB triples, as numpy's (H, W, 3) arrays
    hold them, plus the channel arithmetic every effect shares. */
module Frames {

  /** One pixel, or one per-pixel offset (noise, colour shift). */
  datatype Rgb = Rgb(r: int, g: int, b: int)

  /** A frame, row-major: f[y][x] is the pixel in row y, column x. */
  type Frame = seq<seq<Rgb>>

  predicate IsFrame(f: Frame, h: nat, w: nat)
  {
    |f| == h && forall y :: 0 <= y < h ==> |f[y]| == w
  }

  function Width(f: Frame): nat
  {
    if |f| == 0 then 0 else |f[0]|
  }

  /** Every row has the same length, as in a numpy array. */
  predicate Rectangular(f: Frame)
  {
    IsFrame(f, |f|, Width(f))
  }

  predicate InByte(x: int)
  {
    0 <= x <= 255
  }

  predicate ValidRgb(p: Rgb)
  {
    InByte(p.r) && InByte(p.g) && InByte(p.b)
  }

  /** Every channel of every pixel is an 8-bit value. */
  predicate ValidFrame(f: Frame)
  {
    forall y, x :: 0 <= y < |f| && 0 <= x < |f[y]| ==> ValidRgb(f[y][x])
  }

  /** np.clip(v, 0, 255): the nearest 8-bit value. */
  function Clip(v: int): (c: int)
    ensures InByte(c)
    ensures InByte(v) ==> c == v
    ensures forall z :: InByte(z) ==> (if c <= v then v - c else c - v) <= (if z <= v then v - z else z - v)
  {
    if v < 0 then 0 else if v > 255 then 255 else v
  }

  function ClipRgb(p: Rgb): (q: Rgb)
    ensures ValidRgb(q)
    ensures ValidRgb(p) ==> q == p
  {
    Rgb(Clip(p.r), Clip(p.g), Clip(p.b))
  }

  function AddRgb(p: Rgb, d: Rgb): Rgb
  {
    Rgb(p.r + d.r, p.g + d.g, p.b + d.b)
  }

  /** A per-pixel map, as numpy's element-wise array arithmetic. */
  function MapFrame(f: Frame, m: Rgb -> Rgb): (out: Frame)
    ensures |out| == |f|
    ensures forall y :: 0 <= y < |f| ==> |out[y]| == |f[y]|
    ensures forall y, x :: 0 <= y < |f| && 0 <= x < |f[y]| ==> out[y][x] == m(f[y][x])
  {
    seq(|f|, y requires 0 <= y < |f| => seq(|f[y]|, x requires 0 <= x < |f[y]| => m(f[y][x])))
  }

  /** np.clip(arr, 0, 255).astype(np.uint8) on a whole frame. */
  function ClipFrame(f: Frame): (out: Frame)
    ensures ValidFrame(out)
    ensures |out| == |f| && forall y :: 0 <= y < |f| ==> |out[y]| == |f[y]|
    ensures ValidFrame(f) ==> out == f
  {
    var out := MapFrame(f, ClipRgb);
    if ValidFrame(f) then
      SameFrame(out, f);
      out
    else
      out
  }

  /** Two frames with the same shape and the same pixels are equal. */
  lemma SameFrame(f: Frame, g: Frame)
    requires |f| == |g|
    requires forall y :: 0 <= y < |f| ==> |f[y]| == |g[y]|
    requires forall y, x :: 0 <= y < |f| && 0 <= x < |f[y]| ==> f[y][x] == g[y][x]
    ensures f == g
  {
    forall y | 0 <= y < |f|
      ensures f[y] == g[y]
    {
      assert forall x :: 0 <= x < |f[y]| ==> f[y][x] == g[y][x];
    }
  }

  /** The frame an (H, W) array of pixels holds. */
  function Grid(a: array2<Rgb>): (f: Frame)
    reads a
    ensures IsFrame(f, a.Length0, a.Length1)
    ensures forall y, x :: 0 <= y < a.Length0 && 0 <= x < a.Length1 ==> f[y][x] == a[y, x]
  {
    seq(a.Length0, y reads a requires 0 <= y < a.Length0 =>
      seq(a.Length1, x reads a requires 0 <= x < a.Length1 => a[y, x]))
  }

  /** np.array(img): a fresh array holding the frame's pixels. */
  method ToArray(f: Frame, h: nat, w: nat) returns (a: array2<Rgb>)
    requires IsFrame(f, h, w)
    ensures fresh(a) && a.Length0 == h && a.Length1 == w
    ensures Grid(a) == f
  {
    a := new Rgb[h, w]((y: nat, x: nat) requires y < h && x < w => f[y][x]);
    SameFrame(Grid(a), f);
  }

  /** An element-wise in-place update (`arr[..., k] += shift` for every channel k). */
  method MapInPlace(a: array2<Rgb>, m: Rgb -> Rgb)
    modifies a
    ensures Grid(a) == MapFrame(old(Grid(a)), m)
  {
    ghost var before := Grid(a);
    var y := 0;
    while y < a.Length0
      invariant 0 <= y <= a.Length0
      invariant forall i, j :: 0 <= i < y && 0 <= j < a.Length1 ==> a[i, j] == m(before[i][j])
      invariant forall i, j :: y <= i < a.Length0 && 0 <= j < a.Length1 ==> a[i, j] == before[i][j]
    {
      var x := 0;
      while x < a.Length1
        invariant 0 <= x <= a.Length1
        invariant forall i, j :: 0 <= i < y && 0 <= j < a.Length1 ==> a[i, j] == m(before[i][j])
        invariant forall j :: 0 <= j < x ==> a[y, j] == m(before[y][j])
        invariant forall j :: x <= j < a.Length1 ==> a[y, j] == before[y][j]
        invariant forall i, j :: y < i < a.Length0 && 0 <= j < a.Length1 ==> a[i, j] == before[i][j]
      {
        a[y, x] := m(a[y, x]);
        x := x + 1;
      }
      y := y + 1;
    }
    SameFrame(Grid(a), MapFrame(before, m));
  }
}
