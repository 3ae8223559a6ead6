/** The per-pixel degradations of video_vintage.py: grain (add_noise_vectorized),
    chromatic aberration (apply_chromatic_aberration) and gate weave (apply_jitter).
    Every random draw is a parameter whose range the caller's generator guarantees. */
module Effects {
  import opened Frames

  // ---------------------------------------------------------------------------
  // Cyclic indices. np.roll(a, k) along an axis of length n puts at index x the
  // element from index (x - k) mod n, with Python's floor modulo (Dafny's % for
  // a positive divisor). Source computes that index with one remainder, of k,
  // and otherwise linear arithmetic. Lemmas that undo a shift take the reverse
  // offset as a parameter of its own (t == -s) rather than as -s.
  // ---------------------------------------------------------------------------

  /** The index np.roll(_, k) reads for output index x on an axis of length n. */
  function Source(x: int, k: int, n: int): (j: int)
    requires n > 0 && 0 <= x < n
    ensures 0 <= j < n
  {
    var s := k % n;
    if x >= s then x - s else x - s + n
  }

  lemma MulAtLeast(d: int, n: int)
    requires d >= 1 && n > 0
    ensures d * n >= n
  {
    if d > 1 {
      MulAtLeast(d - 1, n);
      assert d * n == (d - 1) * n + n;
    }
  }

  /** Euclidean remainders are unique. */
  lemma ModUnique(v: int, n: int, q: int, r: int)
    requires n > 0 && 0 <= r < n && v == q * n + r
    ensures v % n == r
  {
    var q', r' := v / n, v % n;
    assert v == q' * n + r';
    assert (q - q') * n == r' - r;
    if q > q' {
      MulAtLeast(q - q', n);
    } else if q < q' {
      MulAtLeast(q' - q, n);
    }
  }

  /** Source is the (x - k) mod n of np.roll. */
  lemma SourceIsMod(x: int, k: int, n: int)
    requires n > 0 && 0 <= x < n
    ensures Source(x, k, n) == (x - k) % n
  {
    var q, m := k / n, k % n;
    assert k == q * n + m;
    if x >= m {
      assert x - k == (-q) * n + (x - m);
      ModUnique(x - k, n, -q, x - m);
    } else {
      assert x - k == (-q - 1) * n + (x - m + n);
      ModUnique(x - k, n, -q - 1, x - m + n);
    }
  }

  lemma NegMod(k: int, t: int, n: int)
    requires n > 0 && t == -k
    ensures t % n == if k % n == 0 then 0 else n - k % n
  {
    var q, m := k / n, k % n;
    assert k == q * n + m;
    if m == 0 {
      assert t == (-q) * n + 0;
      ModUnique(t, n, -q, 0);
    } else {
      assert t == (-q - 1) * n + (n - m);
      ModUnique(t, n, -q - 1, n - m);
    }
  }

  lemma AddMod(k: int, k': int, n: int)
    requires n > 0
    ensures (k + k') % n == if k % n + k' % n < n then k % n + k' % n else k % n + k' % n - n
  {
    var q, m := k / n, k % n;
    var q', m' := k' / n, k' % n;
    assert k == q * n + m && k' == q' * n + m';
    if m + m' < n {
      assert k + k' == (q + q') * n + (m + m');
      ModUnique(k + k', n, q + q', m + m');
    } else {
      assert k + k' == (q + q' + 1) * n + (m + m' - n);
      ModUnique(k + k', n, q + q' + 1, m + m' - n);
    }
  }

  /** A roll by 0 reads every index in place. */
  lemma SourceZero(x: int, n: int)
    requires n > 0 && 0 <= x < n
    ensures Source(x, 0, n) == x
  {
    ModUnique(0, n, 0, 0);
  }

  /** Rolling by k and then by -k reads every index in place. */
  lemma SourceBack(x: int, k: int, t: int, n: int)
    requires n > 0 && 0 <= x < n && t == -k
    ensures Source(Source(x, t, n), k, n) == x
  {
    NegMod(k, t, n);
  }

  /** Rolling by k and then by k' is rolling by k + k'. */
  lemma SourceTwice(x: int, k: int, k': int, n: int)
    requires n > 0 && 0 <= x < n
    ensures Source(Source(x, k', n), k, n) == Source(x, k + k', n)
  {
    AddMod(k, k', n);
  }

  // ---------------------------------------------------------------------------
  // Grain
  // ---------------------------------------------------------------------------

  /** Two's-complement wrap-around of a 16-bit signed integer (numpy int16). */
  function Int16(v: int): (w: int)
    ensures -32768 <= w <= 32767
    ensures -32768 <= v <= 32767 ==> w == v
    ensures (w - v) % 65536 == 0
  {
    (v + 32768) % 65536 - 32768
  }

  function Int16Rgb(p: Rgb): Rgb
  {
    Rgb(Int16(p.r), Int16(p.g), Int16(p.b))
  }

  /** Every offset of the noise field lies in [-amount, amount], the range of
      np.random.randint(-amount, amount + 1). */
  predicate NoiseWithin(noise: Frame, amount: int)
  {
    forall y, x :: 0 <= y < |noise| && 0 <= x < |noise[y]| ==>
      -amount <= noise[y][x].r <= amount &&
      -amount <= noise[y][x].g <= amount &&
      -amount <= noise[y][x].b <= amount
  }

  /** Grain: a no-op for amount <= 0; otherwise every channel gets its own drawn
      offset, added in int16 and clipped to [0, 255]. The int16 draw itself
      rejects amount > 32767. */
  function AddNoise(f: Frame, amount: int, noise: Frame): (out: Frame)
    requires Rectangular(f)
    requires amount > 0 ==> amount <= 32767 && IsFrame(noise, |f|, Width(f)) && NoiseWithin(noise, amount)
    ensures amount <= 0 ==> out == f
    ensures IsFrame(out, |f|, Width(f))
    ensures amount > 0 ==> ValidFrame(out)
  {
    if amount <= 0 then f
    else seq(|f|, y requires 0 <= y < |f| =>
           seq(|f[y]|, x requires 0 <= x < |f[y]| => ClipRgb(Int16Rgb(AddRgb(f[y][x], noise[y][x])))))
  }

  /** |a - b| <= d, channel by channel. */
  predicate Near(p: Rgb, q: Rgb, d: int)
  {
    -d <= p.r - q.r <= d && -d <= p.g - q.g <= d && -d <= p.b - q.b <= d
  }

  /** On an 8-bit frame no output channel moves further than the amount from
      its input (for amounts where int16 cannot wrap). */
  lemma NoiseStaysNear(f: Frame, amount: int, noise: Frame)
    requires Rectangular(f) && ValidFrame(f)
    requires 0 < amount <= 32767 - 255
    requires IsFrame(noise, |f|, Width(f)) && NoiseWithin(noise, amount)
    ensures forall y, x :: 0 <= y < |f| && 0 <= x < |f[y]| ==>
      AddNoise(f, amount, noise)[y][x] == ClipRgb(AddRgb(f[y][x], noise[y][x])) &&
      Near(AddNoise(f, amount, noise)[y][x], f[y][x], amount)
  {
  }

  /** int16 does wrap at the extremes of the range the draw allows: a white
      pixel plus the largest offset comes out black. */
  lemma NoiseWrapsAtLimit()
    ensures AddNoise([[Rgb(255, 255, 255)]], 32767, [[Rgb(32767, 32767, 32767)]]) == [[Rgb(0, 0, 0)]]
  {
    var out := AddNoise([[Rgb(255, 255, 255)]], 32767, [[Rgb(32767, 32767, 32767)]]);
    assert Int16(255 + 32767) == -32514;
    assert out[0][0] == Rgb(0, 0, 0);
    assert |out| == 1 && |out[0]| == 1;
    assert out[0] == [Rgb(0, 0, 0)];
  }

  /** The amount bound holds at every amount the draw allows, wrap or not: where
      int16 can wrap the amount exceeds 255, and both frames are 8-bit. */
  lemma NoiseNearAnyAmount(f: Frame, amount: int, noise: Frame)
    requires Rectangular(f) && ValidFrame(f)
    requires 0 < amount <= 32767
    requires IsFrame(noise, |f|, Width(f)) && NoiseWithin(noise, amount)
    ensures forall y, x :: 0 <= y < |f| && 0 <= x < |f[y]| ==>
      Near(AddNoise(f, amount, noise)[y][x], f[y][x], amount)
  {
    if amount <= 32767 - 255 {
      NoiseStaysNear(f, amount, noise);
    } else {
      var out := AddNoise(f, amount, noise);
      forall y, x | 0 <= y < |f| && 0 <= x < |f[y]|
        ensures Near(out[y][x], f[y][x], amount)
      {
        assert ValidRgb(out[y][x]) && ValidRgb(f[y][x]);
      }
    }
  }

  /** An all-zero noise field leaves an 8-bit frame unchanged. */
  lemma ZeroNoiseIsIdentity(f: Frame, amount: int, noise: Frame)
    requires Rectangular(f) && ValidFrame(f)
    requires 0 < amount <= 32767
    requires IsFrame(noise, |f|, Width(f)) && NoiseWithin(noise, 0)
    ensures AddNoise(f, amount, noise) == f
  {
    var out := AddNoise(f, amount, noise);
    forall y, x | 0 <= y < |f| && 0 <= x < |f[y]|
      ensures out[y][x] == f[y][x]
    {
      assert noise[y][x] == Rgb(0, 0, 0);
    }
    SameFrame(out, f);
  }

  // ---------------------------------------------------------------------------
  // Chromatic aberration
  // ---------------------------------------------------------------------------

  /** One row of `arr[..., 0] = np.roll(arr[..., 0], k, axis=1)`: the red value
      of column x comes from column (x - k) mod W; green and blue stay. */
  function RollRedRow(row: seq<Rgb>, k: int): (out: seq<Rgb>)
    ensures |out| == |row|
  {
    seq(|row|, x requires 0 <= x < |row| => row[x].(r := row[Source(x, k, |row|)].r))
  }

  /** The same roll of the blue plane (`arr[..., 2]`). */
  function RollBlueRow(row: seq<Rgb>, k: int): (out: seq<Rgb>)
    ensures |out| == |row|
  {
    seq(|row|, x requires 0 <= x < |row| => row[x].(b := row[Source(x, k, |row|)].b))
  }

  function RollRed(f: Frame, k: int): (out: Frame)
    ensures |out| == |f| && forall y :: 0 <= y < |f| ==> out[y] == RollRedRow(f[y], k)
  {
    seq(|f|, y requires 0 <= y < |f| => RollRedRow(f[y], k))
  }

  function RollBlue(f: Frame, k: int): (out: Frame)
    ensures |out| == |f| && forall y :: 0 <= y < |f| ==> out[y] == RollBlueRow(f[y], k)
  {
    seq(|f|, y requires 0 <= y < |f| => RollBlueRow(f[y], k))
  }

  /** One row of apply_chromatic_aberration. */
  function AberratedRow(row: seq<Rgb>, shift: int): (out: seq<Rgb>)
    ensures |out| == |row|
  {
    if shift == 0 then row else RollBlueRow(RollRedRow(row, -shift), shift)
  }

  /** apply_chromatic_aberration: red rolled left and blue rolled right by
      `shift` columns; shift 0 returns the array untouched. */
  function Aberrated(f: Frame, shift: int): (out: Frame)
    ensures |out| == |f| && forall y :: 0 <= y < |f| ==> out[y] == AberratedRow(f[y], shift)
    ensures shift == 0 ==> out == f
    ensures Rectangular(f) ==> IsFrame(out, |f|, Width(f))
  {
    if shift == 0 then f else RollBlue(RollRed(f, -shift), shift)
  }

  lemma RollRedRowAt(row: seq<Rgb>, k: int, x: int)
    requires 0 <= x < |row|
    ensures RollRedRow(row, k)[x] == Rgb(row[Source(x, k, |row|)].r, row[x].g, row[x].b)
  {
  }

  lemma RollBlueRowAt(row: seq<Rgb>, k: int, x: int)
    requires 0 <= x < |row|
    ensures RollBlueRow(row, k)[x] == Rgb(row[x].r, row[x].g, row[Source(x, k, |row|)].b)
  {
  }

  lemma AberratedRowAt(row: seq<Rgb>, shift: int, back: int, x: int)
    requires 0 <= x < |row| && back == -shift
    ensures AberratedRow(row, shift)[x] ==
      Rgb(row[Source(x, back, |row|)].r, row[x].g, row[Source(x, shift, |row|)].b)
  {
    var n := |row|;
    if shift == 0 {
      SourceZero(x, n);
    } else {
      var red := RollRedRow(row, back);
      RollBlueRowAt(red, shift, x);
      RollRedRowAt(row, back, x);
      RollRedRowAt(row, back, Source(x, shift, n));
    }
  }

  /** Pixel by pixel: red from column (x + shift) mod W, green in place, blue
      from column (x - shift) mod W (Source(x, -shift, W) and Source(x, shift, W)). */
  lemma AberratedAt(f: Frame, shift: int, back: int, y: int, x: int)
    requires 0 <= y < |f| && 0 <= x < |f[y]| && back == -shift
    ensures Aberrated(f, shift)[y][x] ==
      Rgb(f[y][Source(x, back, |f[y]|)].r, f[y][x].g, f[y][Source(x, shift, |f[y]|)].b)
  {
    AberratedRowAt(f[y], shift, back, x);
  }

  /** Aberration keeps every channel an 8-bit value. */
  lemma AberratedValid(f: Frame, shift: int)
    requires ValidFrame(f)
    ensures ValidFrame(Aberrated(f, shift))
  {
    forall y, x | 0 <= y < |f| && 0 <= x < |f[y]|
      ensures ValidRgb(Aberrated(f, shift)[y][x])
    {
      AberratedAt(f, shift, -shift, y, x);
      var w := |f[y]|;
      assert ValidRgb(f[y][Source(x, -shift, w)]) && ValidRgb(f[y][Source(x, shift, w)]);
    }
  }

  lemma AberratedRowUndone(row: seq<Rgb>, shift: int, back: int)
    requires back == -shift
    ensures AberratedRow(AberratedRow(row, shift), back) == row
  {
    var g := AberratedRow(row, shift);
    var h := AberratedRow(g, back);
    var n := |row|;
    forall x | 0 <= x < n
      ensures h[x] == row[x]
    {
      AberratedRowAt(g, back, shift, x);
      AberratedRowAt(row, shift, back, Source(x, shift, n));
      AberratedRowAt(row, shift, back, Source(x, back, n));
      SourceBack(x, shift, back, n);
      SourceBack(x, back, shift, n);
    }
  }

  /** Rolling red and blue back by -shift restores the frame: aberration loses
      no pixel data. */
  lemma {:induction false} AberrationUndone(f: Frame, shift: int, back: int)
    requires back == -shift
    ensures Aberrated(Aberrated(f, shift), back) == f
  {
    var h := Aberrated(Aberrated(f, shift), back);
    forall y | 0 <= y < |f|
      ensures h[y] == f[y]
    {
      AberratedRowUndone(f[y], shift, back);
    }
  }

  /** Row y of the in-place roll of the red plane: every column takes the
      red value np.roll's copy holds for it. */
  method RollRedRowInPlace(a: array2<Rgb>, y: int, k: int)
    requires 0 <= y < a.Length0
    modifies a
    ensures forall j :: 0 <= j < a.Length1 ==> a[y, j] == RollRedRow(old(Grid(a))[y], k)[j]
    ensures forall i, j :: 0 <= i < a.Length0 && i != y && 0 <= j < a.Length1 ==> a[i, j] == old(a[i, j])
  {
    ghost var src := Grid(a);
    var row := seq(a.Length1, j reads a requires 0 <= j < a.Length1 => a[y, j]);
    assert row == src[y];
    var w := a.Length1;
    var x := 0;
    while x < w
      invariant 0 <= x <= w
      invariant forall j :: 0 <= j < x ==> a[y, j] == row[j].(r := row[Source(j, k, w)].r)
      invariant forall j :: x <= j < w ==> a[y, j] == row[j]
      invariant forall i, j :: 0 <= i < a.Length0 && i != y && 0 <= j < w ==> a[i, j] == src[i][j]
    {
      a[y, x] := a[y, x].(r := row[Source(x, k, w)].r);
      x := x + 1;
    }
  }

  /** The in-place roll of the red plane, made after np.roll has copied it. */
  method RollRedInPlace(a: array2<Rgb>, k: int)
    modifies a
    ensures Grid(a) == RollRed(old(Grid(a)), k)
  {
    ghost var src := Grid(a);
    var y := 0;
    while y < a.Length0
      invariant 0 <= y <= a.Length0
      invariant forall i, j :: 0 <= i < y && 0 <= j < a.Length1 ==> a[i, j] == RollRedRow(src[i], k)[j]
      invariant forall i, j :: y <= i < a.Length0 && 0 <= j < a.Length1 ==> a[i, j] == src[i][j]
    {
      RollRedRowInPlace(a, y, k);
      y := y + 1;
    }
    SameFrame(Grid(a), RollRed(src, k));
  }

  /** Row y of the in-place roll of the blue plane: every column takes the
      blue value np.roll's copy holds for it. */
  method RollBlueRowInPlace(a: array2<Rgb>, y: int, k: int)
    requires 0 <= y < a.Length0
    modifies a
    ensures forall j :: 0 <= j < a.Length1 ==> a[y, j] == RollBlueRow(old(Grid(a))[y], k)[j]
    ensures forall i, j :: 0 <= i < a.Length0 && i != y && 0 <= j < a.Length1 ==> a[i, j] == old(a[i, j])
  {
    ghost var src := Grid(a);
    var row := seq(a.Length1, j reads a requires 0 <= j < a.Length1 => a[y, j]);
    assert row == src[y];
    var w := a.Length1;
    var x := 0;
    while x < w
      invariant 0 <= x <= w
      invariant forall j :: 0 <= j < x ==> a[y, j] == row[j].(b := row[Source(j, k, w)].b)
      invariant forall j :: x <= j < w ==> a[y, j] == row[j]
      invariant forall i, j :: 0 <= i < a.Length0 && i != y && 0 <= j < w ==> a[i, j] == src[i][j]
    {
      a[y, x] := a[y, x].(b := row[Source(x, k, w)].b);
      x := x + 1;
    }
  }

  /** The in-place roll of the blue plane, made after np.roll has copied it. */
  method RollBlueInPlace(a: array2<Rgb>, k: int)
    modifies a
    ensures Grid(a) == RollBlue(old(Grid(a)), k)
  {
    ghost var src := Grid(a);
    var y := 0;
    while y < a.Length0
      invariant 0 <= y <= a.Length0
      invariant forall i, j :: 0 <= i < y && 0 <= j < a.Length1 ==> a[i, j] == RollBlueRow(src[i], k)[j]
      invariant forall i, j :: y <= i < a.Length0 && 0 <= j < a.Length1 ==> a[i, j] == src[i][j]
    {
      RollBlueRowInPlace(a, y, k);
      y := y + 1;
    }
    SameFrame(Grid(a), RollBlue(src, k));
  }

  /** apply_chromatic_aberration, overwriting the red and then the blue plane
      of the array it is given. */
  method ApplyChromaticAberration(a: array2<Rgb>, shift: int)
    modifies a
    ensures Grid(a) == Aberrated(old(Grid(a)), shift)
  {
    if shift == 0 {
      return;
    }
    RollRedInPlace(a, -shift);
    RollBlueInPlace(a, shift);
  }

  // ---------------------------------------------------------------------------
  // Jitter
  // ---------------------------------------------------------------------------

  /** One row of np.roll(arr, k, axis=1). */
  function RollRow(row: seq<Rgb>, k: int): (out: seq<Rgb>)
    ensures |out| == |row|
  {
    seq(|row|, x requires 0 <= x < |row| => row[Source(x, k, |row|)])
  }

  /** np.roll(arr, k, axis=1): column x is taken from column (x - k) mod W. */
  function RollColumns(f: Frame, k: int): (out: Frame)
    ensures |out| == |f| && forall y :: 0 <= y < |f| ==> out[y] == RollRow(f[y], k)
  {
    seq(|f|, y requires 0 <= y < |f| => RollRow(f[y], k))
  }

  /** np.roll(arr, k, axis=0): row y is taken from row (y - k) mod H. */
  function RollRows(f: Frame, k: int): (out: Frame)
    ensures |out| == |f| && forall y :: 0 <= y < |f| ==> out[y] == f[Source(y, k, |f|)]
  {
    seq(|f|, y requires 0 <= y < |f| => f[Source(y, k, |f|)])
  }

  /** apply_jitter with its two draws dx, dy from random.randint(-maxShift, maxShift)
      (which has no value to draw when maxShift < 0); maxShift 0 returns the
      array untouched. */
  function Jitter(f: Frame, maxShift: int, dx: int, dy: int): (out: Frame)
    requires Rectangular(f)
    requires maxShift != 0 ==> -maxShift <= dx <= maxShift && -maxShift <= dy <= maxShift
    ensures IsFrame(out, |f|, Width(f))
    ensures maxShift == 0 ==> out == f
  {
    if maxShift == 0 then f else RollRows(RollColumns(f, dx), dy)
  }

  /** The cyclic 2-D roll: out[y][x] == in[(y - dy) mod H][(x - dx) mod W]. */
  lemma JitterAt(f: Frame, maxShift: int, dx: int, dy: int, y: int, x: int)
    requires Rectangular(f)
    requires maxShift != 0 && -maxShift <= dx <= maxShift && -maxShift <= dy <= maxShift
    requires 0 <= y < |f| && 0 <= x < Width(f)
    ensures Jitter(f, maxShift, dx, dy)[y][x] == f[Source(y, dy, |f|)][Source(x, dx, Width(f))]
  {
  }

  /** Jitter keeps every channel an 8-bit value. */
  lemma JitterValid(f: Frame, maxShift: int, dx: int, dy: int)
    requires Rectangular(f) && ValidFrame(f)
    requires maxShift != 0 ==> -maxShift <= dx <= maxShift && -maxShift <= dy <= maxShift
    ensures ValidFrame(Jitter(f, maxShift, dx, dy))
  {
    if maxShift != 0 {
      forall y, x | 0 <= y < |f| && 0 <= x < Width(f)
        ensures ValidRgb(Jitter(f, maxShift, dx, dy)[y][x])
      {
        JitterAt(f, maxShift, dx, dy, y, x);
        assert ValidRgb(f[Source(y, dy, |f|)][Source(x, dx, Width(f))]);
      }
    }
  }

  /** Two rolls compose into one roll by the summed offsets. */
  lemma {:induction false} RollsCompose(f: Frame, dx: int, dy: int, dx': int, dy': int)
    requires Rectangular(f)
    ensures RollRows(RollColumns(RollRows(RollColumns(f, dx), dy), dx'), dy') ==
            RollRows(RollColumns(f, dx' + dx), dy' + dy)
  {
    var g := RollRows(RollColumns(f, dx), dy);
    var lhs := RollRows(RollColumns(g, dx'), dy');
    var rhs := RollRows(RollColumns(f, dx' + dx), dy' + dy);
    var rows, w := |f|, Width(f);
    forall y, x | 0 <= y < rows && 0 <= x < w
      ensures lhs[y][x] == rhs[y][x]
    {
      SourceTwice(y, dy, dy', rows);
      SourceTwice(x, dx, dx', w);
    }
    SameFrame(lhs, rhs);
  }

  /** A roll by 0 in either direction is the identity. */
  lemma RollZero(f: Frame)
    requires Rectangular(f)
    ensures RollRows(RollColumns(f, 0), 0) == f
  {
    var g := RollRows(RollColumns(f, 0), 0);
    forall y, x | 0 <= y < |f| && 0 <= x < Width(f)
      ensures g[y][x] == f[y][x]
    {
      SourceZero(y, |f|);
      SourceZero(x, Width(f));
    }
    SameFrame(g, f);
  }

  /** Jitter is a permutation of the pixels: the jitter by the opposite draws
      (dx', dy') == (-dx, -dy) undoes it. */
  lemma JitterUndone(f: Frame, maxShift: int, dx: int, dy: int, dx': int, dy': int)
    requires Rectangular(f)
    requires maxShift != 0 ==> -maxShift <= dx <= maxShift && -maxShift <= dy <= maxShift
    requires dx' == -dx && dy' == -dy
    ensures Jitter(Jitter(f, maxShift, dx, dy), maxShift, dx', dy') == f
  {
    if maxShift != 0 {
      RollsCompose(f, dx, dy, dx', dy');
      assert dx' + dx == 0 && dy' + dy == 0;
      RollZero(f);
    }
  }

}
