/** LightLeakManager of video_vintage.py: a four-phase machine that fades a
    light-leak image in, holds it, fades it out and waits, blending the
    current leak additively onto every frame while it is visible.

    Opacity is kept exactly, in hundredths: 0.05 is 5, 0.03 is 3, the maximum
    0.8 is 80 and the visibility threshold 0.01 is 1. The three random draws
    of one call (random.random() for the start chance, random.randint for the
    leak index and for the hold length) arrive together as a LeakDraw. */
module LightLeaks {
  import opened Frames

  datatype Phase = Idle | FadeIn | Active | FadeOut

  /** The four fields apply updates: state, opacity (hundredths),
      duration_counter and active_leak_idx. */
  datatype LeakState = LeakState(phase: Phase, opacity: int, counter: int, idx: int)

  /** What __init__ sets: idle, opacity 0, counter 0, no leak chosen. */
  const Initial := LeakState(Idle, 0, 0, -1)

  /** The draws of one call: `chance` from random.random() in [0, 1), `pick`
      from random.randint(0, n - 1), `hold` from random.randint(10, 30). */
  datatype LeakDraw = LeakDraw(chance: real, pick: int, hold: int)

  predicate DrawOk(d: LeakDraw, n: nat)
  {
    0.0 <= d.chance < 1.0 && 0 <= d.pick < n && 10 <= d.hold <= 30
  }

  predicate DrawsOk(ds: seq<LeakDraw>, n: nat)
  {
    forall i :: 0 <= i < |ds| ==> DrawOk(ds[i], n)
  }

  /** The phase that follows p in the cycle idle -> fade_in -> active ->
      fade_out -> idle. */
  function Next(p: Phase): Phase
  {
    match p
    case Idle => FadeIn
    case FadeIn => Active
    case Active => FadeOut
    case FadeOut => Idle
  }

  /** The state machine of apply for n > 0 loaded leaks. A call either keeps
      the phase or moves to the next one; the leak index changes only when a
      leak starts, and opacity only outside the active phase. */
  function Step(s: LeakState, d: LeakDraw): (r: LeakState)
    ensures r.phase == s.phase || r.phase == Next(s.phase)
    ensures r.idx == s.idx || (s.phase == Idle && r.phase == FadeIn && r.idx == d.pick)
    ensures s.phase == Active ==> r.opacity == s.opacity
  {
    match s.phase
    case Idle =>
      if d.chance < 0.02 then LeakState(FadeIn, 0, s.counter, d.pick) else s
    case FadeIn =>
      if s.opacity + 5 >= 80 then LeakState(Active, s.opacity + 5, d.hold, s.idx)
      else s.(opacity := s.opacity + 5)
    case Active =>
      if s.counter - 1 <= 0 then s.(phase := FadeOut, counter := s.counter - 1)
      else s.(counter := s.counter - 1)
    case FadeOut =>
      if s.opacity - 3 <= 0 then s.(phase := Idle, opacity := 0)
      else s.(opacity := s.opacity - 3)
  }

  /** The states the machine can be in with n loaded leaks. */
  predicate LeakInv(s: LeakState, n: nat)
  {
    (s.idx == -1 || 0 <= s.idx < n) &&
    match s.phase
    case Idle => s.opacity == 0
    case FadeIn => 0 <= s.opacity < 80 && s.opacity % 5 == 0 && 0 <= s.idx < n
    case Active => s.opacity == 80 && 1 <= s.counter <= 30 && 0 <= s.idx < n
    case FadeOut => 0 < s.opacity <= 80 && s.opacity % 3 == 2 && 0 <= s.idx < n
  }

  /** The initial state is one of them. */
  lemma InitialInv(n: nat)
    ensures LeakInv(Initial, n)
  {
  }

  /** Every step keeps the invariant: opacity stays in [0, 80] (below the 0.85
      bound), is 0 whenever the machine is idle, and the chosen leak exists
      whenever the machine is not idle. */
  lemma StepInv(s: LeakState, n: nat, d: LeakDraw)
    requires LeakInv(s, n) && DrawOk(d, n)
    ensures LeakInv(Step(s, d), n)
    ensures 0 <= Step(s, d).opacity <= 80
    ensures Step(s, d).opacity > 0 ==> 0 <= Step(s, d).idx < n
  {
  }

  /** What one step does, phase by phase. */
  lemma StepEffect(s: LeakState, n: nat, d: LeakDraw)
    requires LeakInv(s, n) && DrawOk(d, n)
    ensures s.phase == Idle ==>
      (Step(s, d).phase == FadeIn <==> d.chance < 0.02) &&
      (Step(s, d).phase == FadeIn ==> Step(s, d).opacity == 0 && Step(s, d).idx == d.pick)
    ensures s.phase == FadeIn ==>
      Step(s, d).opacity == s.opacity + 5 &&
      (Step(s, d).phase == Active <==> s.opacity == 75) &&
      (Step(s, d).phase == Active ==> 10 <= Step(s, d).counter <= 30)
    ensures s.phase == Active ==>
      Step(s, d).opacity == s.opacity && Step(s, d).counter == s.counter - 1 &&
      (Step(s, d).phase == FadeOut <==> s.counter == 1)
    ensures s.phase == FadeOut ==>
      (Step(s, d).phase == Idle <==> s.opacity <= 3) &&
      (Step(s, d).phase == FadeOut ==> Step(s, d).opacity == s.opacity - 3) &&
      (Step(s, d).phase == Idle ==> Step(s, d).opacity == 0)
    ensures Step(s, d).idx == s.idx || (s.phase == Idle && Step(s, d).idx == d.pick)
    ensures s.phase == Idle && d.chance >= 0.02 ==> Step(s, d) == s
    ensures s.phase == Idle && d.chance < 0.02 ==> Step(s, d) == LeakState(FadeIn, 0, s.counter, d.pick)
    ensures s.phase == FadeIn && s.opacity < 75 ==> Step(s, d) == s.(opacity := s.opacity + 5)
    ensures s.phase == FadeIn && s.opacity == 75 ==> Step(s, d) == LeakState(Active, 80, d.hold, s.idx)
    ensures s.phase == Active && s.counter > 1 ==> Step(s, d) == s.(counter := s.counter - 1)
    ensures s.phase == Active && s.counter == 1 ==> Step(s, d) == s.(phase := FadeOut, counter := 0)
    ensures s.phase == FadeOut && s.opacity > 3 ==> Step(s, d) == s.(opacity := s.opacity - 3)
    ensures s.phase == FadeOut && s.opacity <= 3 ==> Step(s, d) == s.(phase := Idle, opacity := 0)
  {
  }

  /** An idle machine stays exactly as it is, opacity 0 included, for as long
      as no draw falls below 0.02. */
  lemma {:induction false} IdleWaits(s: LeakState, n: nat, ds: seq<LeakDraw>)
    requires s.phase == Idle && LeakInv(s, n)
    requires forall i :: 0 <= i < |ds| ==> ds[i].chance >= 0.02
    ensures Run(s, ds) == s
    ensures Run(s, ds).opacity == 0
    decreases |ds|
  {
    if |ds| > 0 {
      assert Step(s, ds[0]) == s;
      IdleWaits(s, n, ds[1..]);
    }
  }

  // ---------------------------------------------------------------------------
  // Runs of the machine over many frames
  // ---------------------------------------------------------------------------

  /** The state after one call per draw, in order. */
  function Run(s: LeakState, ds: seq<LeakDraw>): LeakState
    decreases |ds|
  {
    if |ds| == 0 then s else Run(Step(s, ds[0]), ds[1..])
  }

  lemma {:induction false} RunInv(s: LeakState, n: nat, ds: seq<LeakDraw>)
    requires LeakInv(s, n) && DrawsOk(ds, n)
    ensures LeakInv(Run(s, ds), n)
    decreases |ds|
  {
    if |ds| > 0 {
      StepInv(s, n, ds[0]);
      RunInv(Step(s, ds[0]), n, ds[1..]);
    }
  }

  /** Running over ds and then over es is running over ds + es. */
  lemma {:induction false} RunAppend(s: LeakState, ds: seq<LeakDraw>, es: seq<LeakDraw>)
    ensures Run(s, ds + es) == Run(Run(s, ds), es)
    decreases |ds|
  {
    if |ds| > 0 {
      assert (ds + es)[1..] == ds[1..] + es;
      RunAppend(Step(s, ds[0]), ds[1..], es);
    } else {
      assert ds + es == es;
    }
  }

  /** From fade-in at opacity 5k the machine reaches full opacity after 16 - k
      calls, holding for the last draw's hold length; it is still fading in
      after any fewer. */
  lemma {:induction false} FadeInTakes(s: LeakState, n: nat, ds: seq<LeakDraw>)
    requires s.phase == FadeIn && LeakInv(s, n) && DrawsOk(ds, n)
    requires |ds| == 16 - s.opacity / 5
    ensures Run(s, ds) == LeakState(Active, 80, ds[|ds| - 1].hold, s.idx)
    ensures forall m :: 0 <= m < |ds| ==> Run(s, ds[..m]).phase == FadeIn
    decreases |ds|
  {
    var t := Step(s, ds[0]);
    if |ds| == 1 {
      assert ds[..0] == [];
    } else {
      assert t.phase == FadeIn && t.opacity == s.opacity + 5;
      FadeInTakes(t, n, ds[1..]);
      forall m | 0 <= m < |ds|
        ensures Run(s, ds[..m]).phase == FadeIn
      {
        if m > 0 {
          assert ds[..m][1..] == ds[1..][..m - 1];
        }
      }
    }
  }

  /** Full opacity holds for exactly `counter` calls, then fading out starts
      at opacity 80. */
  lemma {:induction false} ActiveTakes(s: LeakState, n: nat, ds: seq<LeakDraw>)
    requires s.phase == Active && LeakInv(s, n)
    requires |ds| == s.counter
    ensures Run(s, ds) == LeakState(FadeOut, 80, 0, s.idx)
    ensures forall m :: 0 <= m < |ds| ==> Run(s, ds[..m]).phase == Active
    decreases |ds|
  {
    var t := Step(s, ds[0]);
    if |ds| == 1 {
      assert ds[..0] == [];
    } else {
      ActiveTakes(t, n, ds[1..]);
      forall m | 0 <= m < |ds|
        ensures Run(s, ds[..m]).phase == Active
      {
        if m > 0 {
          assert ds[..m][1..] == ds[1..][..m - 1];
        }
      }
    }
  }

  /** Fading out from opacity o takes ceil(o / 3) calls and ends idle at
      opacity exactly 0. */
  lemma {:induction false} FadeOutTakes(s: LeakState, n: nat, ds: seq<LeakDraw>)
    requires s.phase == FadeOut && LeakInv(s, n)
    requires |ds| == (s.opacity + 2) / 3
    ensures Run(s, ds) == LeakState(Idle, 0, s.counter, s.idx)
    ensures forall m :: 0 <= m < |ds| ==> Run(s, ds[..m]).phase == FadeOut
    decreases |ds|
  {
    var t := Step(s, ds[0]);
    if |ds| == 1 {
      assert ds[..0] == [];
    } else {
      FadeOutTakes(t, n, ds[1..]);
      forall m | 0 <= m < |ds|
        ensures Run(s, ds[..m]).phase == FadeOut
      {
        if m > 0 {
          assert ds[..m][1..] == ds[1..][..m - 1];
        }
      }
    }
  }

  /** A whole leak: a start draw below 0.02, 16 calls of fade-in, H calls at
      full opacity for the hold H drawn on the last of them, and 27 calls of
      fade-out bring an idle machine back to idle at opacity 0 after 44 + H
      calls, with the picked leak still recorded. */
  lemma {:induction false} LeakCycle(s: LeakState, n: nat, ds: seq<LeakDraw>)
    requires s.phase == Idle && LeakInv(s, n) && DrawsOk(ds, n)
    requires |ds| >= 17 && ds[0].chance < 0.02
    requires |ds| == 44 + ds[16].hold
    ensures Run(s, ds) == LeakState(Idle, 0, 0, ds[0].pick)
  {
    var h := ds[16].hold;
    var start, fin, hold, out := ds[..1], ds[1..17], ds[17..17 + h], ds[17 + h..];
    assert ds == start + fin + hold + out;
    RunAppend(s, start + fin + hold, out);
    RunAppend(s, start + fin, hold);
    RunAppend(s, start, fin);
    var s1 := Run(s, start);
    assert s1 == Step(s, ds[0]) by {
      assert start[1..] == [];
    }
    assert s1 == LeakState(FadeIn, 0, s.counter, ds[0].pick);
    assert DrawsOk(fin, n) by {
      forall i | 0 <= i < |fin| ensures DrawOk(fin[i], n) { assert fin[i] == ds[1 + i]; }
    }
    FadeInTakes(s1, n, fin);
    var s2 := Run(s1, fin);
    assert s2 == LeakState(Active, 80, h, ds[0].pick);
    ActiveTakes(s2, n, hold);
    var s3 := Run(s2, hold);
    FadeOutTakes(s3, n, out);
  }

  // ---------------------------------------------------------------------------
  // The additive blend
  // ---------------------------------------------------------------------------

  /** frame + leak * opacity, clipped to [0, 255] and truncated to uint8; with
      non-negative values the truncation is the floor, and the integer frame
      channel comes out of it unchanged. */
  function BlendChannel(c: int, l: int, op: int): (v: int)
    ensures InByte(v)
  {
    Clip(c + (l * op) / 100)
  }

  function BlendRgb(p: Rgb, q: Rgb, op: int): (v: Rgb)
    ensures ValidRgb(v)
  {
    Rgb(BlendChannel(p.r, q.r, op), BlendChannel(p.g, q.g, op), BlendChannel(p.b, q.b, op))
  }

  function LeakBlend(frame: Frame, leak: Frame, op: int): (out: Frame)
    requires IsFrame(leak, |frame|, Width(frame)) && Rectangular(frame)
    ensures IsFrame(out, |frame|, Width(frame))
  {
    seq(|frame|, y requires 0 <= y < |frame| =>
      seq(|frame[y]|, x requires 0 <= x < |frame[y]| => BlendRgb(frame[y][x], leak[y][x], op)))
  }

  /** Channel by channel, q is at least as bright as p. */
  predicate NoDarker(p: Rgb, q: Rgb)
  {
    p.r <= q.r && p.g <= q.g && p.b <= q.b
  }

  /** One channel of the blend: 8-bit, no lower than an 8-bit input, the
      input itself at opacity 0, and monotone in the opacity. */
  lemma BlendChannelProps(c: int, l: int, op: int, op': int)
    requires InByte(c) && InByte(l) && 0 <= op <= op'
    ensures InByte(BlendChannel(c, l, op))
    ensures c <= BlendChannel(c, l, op) <= BlendChannel(c, l, op')
    ensures op == 0 ==> BlendChannel(c, l, op) == c
  {
    var a, b := l * op, l * op';
    assert 0 <= a <= b by {
      assert l * (op' - op) >= 0;
    }
    assert 0 <= a / 100 <= b / 100;
  }

  /** One pixel of the blend: 8-bit, no darker than an 8-bit input, and no
      darker than the same blend at a lower opacity. */
  lemma BlendRgbProps(p: Rgb, l: Rgb, op: int, op': int)
    requires ValidRgb(p) && ValidRgb(l) && 0 <= op <= op'
    ensures ValidRgb(BlendRgb(p, l, op))
    ensures NoDarker(p, BlendRgb(p, l, op))
    ensures NoDarker(BlendRgb(p, l, op), BlendRgb(p, l, op'))
    ensures op == 0 ==> BlendRgb(p, l, op) == p
  {
    BlendChannelProps(p.r, l.r, op, op');
    BlendChannelProps(p.g, l.g, op, op');
    BlendChannelProps(p.b, l.b, op, op');
  }

  /** The blend is 8-bit, brightens an 8-bit frame under an 8-bit leak, leaves
      it unchanged at opacity 0, and brightens more as opacity rises. */
  lemma LeakBlendProps(frame: Frame, leak: Frame, op: int, op': int)
    requires Rectangular(frame) && ValidFrame(frame)
    requires IsFrame(leak, |frame|, Width(frame)) && ValidFrame(leak)
    requires 0 <= op <= op'
    ensures ValidFrame(LeakBlend(frame, leak, op))
    ensures forall y, x :: 0 <= y < |frame| && 0 <= x < |frame[y]| ==>
      NoDarker(frame[y][x], LeakBlend(frame, leak, op)[y][x])
    ensures forall y, x :: 0 <= y < |frame| && 0 <= x < |frame[y]| ==>
      NoDarker(LeakBlend(frame, leak, op)[y][x], LeakBlend(frame, leak, op')[y][x])
    ensures op == 0 ==> LeakBlend(frame, leak, op) == frame
  {
    var out, out' := LeakBlend(frame, leak, op), LeakBlend(frame, leak, op');
    forall y, x | 0 <= y < |frame| && 0 <= x < |frame[y]|
      ensures ValidRgb(out[y][x]) && NoDarker(frame[y][x], out[y][x]) && NoDarker(out[y][x], out'[y][x])
      ensures op == 0 ==> out[y][x] == frame[y][x]
    {
      BlendRgbProps(frame[y][x], leak[y][x], op, op');
    }
    if op == 0 {
      SameFrame(out, frame);
    }
  }

  /** What apply returns after its state update: the blend when opacity is
      above 0.01, the frame itself otherwise. */
  function Visible(s: LeakState, leaks: seq<Frame>, frame: Frame): (out: Frame)
    requires Rectangular(frame) && LeakInv(s, |leaks|)
    requires forall i :: 0 <= i < |leaks| ==> IsFrame(leaks[i], |frame|, Width(frame))
    ensures IsFrame(out, |frame|, Width(frame))
    ensures s.opacity <= 1 ==> out == frame
  {
    if s.opacity > 1 then LeakBlend(frame, leaks[s.idx], s.opacity) else frame
  }

  /** An idle machine, and every fade-in's first frame, shows no leak; every
      other reachable state shows one, since fading out from 0.8 in steps of
      0.03 never lands on the 0.01 threshold. */
  lemma VisibleWhen(s: LeakState, leaks: seq<Frame>, frame: Frame)
    requires Rectangular(frame) && LeakInv(s, |leaks|)
    requires forall i :: 0 <= i < |leaks| ==> IsFrame(leaks[i], |frame|, Width(frame))
    ensures s.opacity > 1 <==> s.opacity > 0
    ensures s.phase == Idle ==> Visible(s, leaks, frame) == frame
    ensures s.phase == FadeIn && s.opacity == 0 ==> Visible(s, leaks, frame) == frame
    ensures s.phase == Active ==> Visible(s, leaks, frame) == LeakBlend(frame, leaks[s.idx], 80)
  {
  }

  // ---------------------------------------------------------------------------
  // The manager object
  // ---------------------------------------------------------------------------

  class LightLeakManager {
    /** The loaded leak images, each resized to the video's height x width. */
    const leaks: seq<Frame>
    const height: nat
    const width: nat
    var phase: Phase
    var opacity: int
    var durationCounter: int
    var activeLeakIdx: int

    function State(): LeakState
      reads this
    {
      LeakState(phase, opacity, durationCounter, activeLeakIdx)
    }

    /** At most five 8-bit leaks of the video's size, and a reachable state. */
    predicate Valid()
      reads this
    {
      |leaks| <= 5 &&
      (forall i :: 0 <= i < |leaks| ==> IsFrame(leaks[i], height, width) && ValidFrame(leaks[i])) &&
      LeakInv(State(), |leaks|)
    }

    /** __init__ with the images that loaded; an empty sequence when none did. */
    constructor (loaded: seq<Frame>, h: nat, w: nat)
      requires |loaded| <= 5
      requires forall i :: 0 <= i < |loaded| ==> IsFrame(loaded[i], h, w) && ValidFrame(loaded[i])
      ensures Valid()
      ensures leaks == loaded && height == h && width == w
      ensures State() == Initial
    {
      leaks := loaded;
      height := h;
      width := w;
      activeLeakIdx := -1;
      opacity := 0;
      phase := Idle;
      durationCounter := 0;
    }

    /** apply: with no leaks loaded, the frame and every field stay as they
        are; otherwise one step of the machine, then the blend if visible. */
    method Apply(frame: Frame, d: LeakDraw) returns (out: Frame)
      requires Valid() && IsFrame(frame, height, width)
      requires |leaks| > 0 ==> DrawOk(d, |leaks|)
      modifies this
      ensures Valid()
      ensures |leaks| == 0 ==> State() == old(State()) && out == frame
      ensures |leaks| > 0 ==> State() == Step(old(State()), d)
      ensures |leaks| > 0 ==> out == Visible(State(), leaks, frame)
    {
      if |leaks| == 0 {
        return frame;
      }
      StepInv(State(), |leaks|, d);
      if phase == Idle {
        if d.chance < 0.02 {
          phase := FadeIn;
          activeLeakIdx := d.pick;
          opacity := 0;
        }
      } else if phase == FadeIn {
        opacity := opacity + 5;
        if opacity >= 80 {
          phase := Active;
          durationCounter := d.hold;
        }
      } else if phase == Active {
        durationCounter := durationCounter - 1;
        if durationCounter <= 0 {
          phase := FadeOut;
        }
      } else {
        opacity := opacity - 3;
        if opacity <= 0 {
          opacity := 0;
          phase := Idle;
        }
      }
      if opacity > 1 {
        out := LeakBlend(frame, leaks[activeLeakIdx], opacity);
      } else {
        out := frame;
      }
    }
  }
}
