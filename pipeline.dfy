/** process_frame of video_vintage.py: the order in which one video frame goes
    through the selected grade, the timestamp overlay, the optional chromatic
    aberration (shift 2), the optional jitter (max shift 1) and the optional
    light leaks. The grade and the overlay composite are calls into PIL and
    arrive as functions on frames. */
module Pipeline {
  import opened Frames
  import opened Effects
  import opened LightLeaks

  /** The effects after the composite, before the leaks. */
  function Staged(f: Frame, aberration: bool, jitter: bool, dx: int, dy: int): (out: Frame)
    requires Rectangular(f)
    requires jitter ==> -1 <= dx <= 1 && -1 <= dy <= 1
    ensures IsFrame(out, |f|, Width(f))
  {
    var g := if aberration then Aberrated(f, 2) else f;
    if jitter then Jitter(g, 1, dx, dy) else g
  }

  /** The effects keep an 8-bit frame 8-bit and its size unchanged, and with
      both disabled they do nothing. */
  lemma StagedValid(f: Frame, aberration: bool, jitter: bool, dx: int, dy: int)
    requires Rectangular(f) && ValidFrame(f)
    requires jitter ==> -1 <= dx <= 1 && -1 <= dy <= 1
    ensures ValidFrame(Staged(f, aberration, jitter, dx, dy))
    ensures !aberration && !jitter ==> Staged(f, aberration, jitter, dx, dy) == f
  {
    var g := if aberration then Aberrated(f, 2) else f;
    if aberration {
      AberratedValid(f, 2);
    }
    if jitter {
      JitterValid(g, 1, dx, dy);
    }
  }

  /** The aberration and jitter stages lose no pixel: jittering back by
      (-dx, -dy) and rolling red and blue back by -2 restores the composite. */
  lemma StagedUndone(f: Frame, dx: int, dy: int)
    requires Rectangular(f)
    requires -1 <= dx <= 1 && -1 <= dy <= 1
    ensures Aberrated(Jitter(Staged(f, true, true, dx, dy), 1, -dx, -dy), -2) == f
  {
    var g := Aberrated(f, 2);
    var j := Jitter(g, 1, dx, dy);
    assert Staged(f, true, true, dx, dy) == j;
    JitterUndone(g, 1, dx, dy, -dx, -dy);
    assert Jitter(j, 1, -dx, -dy) == g;
    AberrationUndone(f, 2, -2);
  }

  /** process_frame: grade, composite, then the enabled effects in place on
      the composited array, then the leak manager when there is one. */
  method ProcessFrame(frame: Frame, h: nat, w: nat, grade: Frame -> Frame, composite: Frame -> Frame,
                      aberration: bool, jitter: bool, dx: int, dy: int,
                      mgr: LightLeakManager?, d: LeakDraw)
    returns (out: Frame)
    requires IsFrame(frame, h, w)
    requires IsFrame(composite(grade(frame)), h, w)
    requires jitter ==> -1 <= dx <= 1 && -1 <= dy <= 1
    requires mgr != null ==> mgr.Valid() && mgr.height == h && mgr.width == w
    requires mgr != null && |mgr.leaks| > 0 ==> DrawOk(d, |mgr.leaks|)
    modifies mgr
    ensures var staged := Staged(composite(grade(frame)), aberration, jitter, dx, dy);
      if mgr == null then out == staged
      else if |mgr.leaks| == 0 then out == staged && mgr.State() == old(mgr.State())
      else mgr.State() == Step(old(mgr.State()), d) && out == Visible(mgr.State(), mgr.leaks, staged)
    ensures mgr != null ==> mgr.Valid()
    ensures IsFrame(out, h, w)
  {
    var img := grade(frame);
    img := composite(img);
    var a := ToArray(img, h, w);
    if aberration {
      ApplyChromaticAberration(a, 2);
    }
    out := Grid(a);
    if jitter {
      out := Jitter(out, 1, dx, dy);
    }
    assert out == Staged(img, aberration, jitter, dx, dy);
    if mgr != null {
      out := mgr.Apply(out, d);
    }
  }
}
