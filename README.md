# video_vintage, modelled in Dafny

`video_vintage.py` turns a video into a "vintage film" look. It processes the video frame by frame: a film grade, a burnt-in timestamp overlay, optional colour fringing and gate weave, and optional light leaks that fade in and out. This project models the integer core of that pipeline and proves properties of the model:

- **Frames** (`frames.dfy`): a frame is an H x W grid of RGB triples (`seq<seq<Rgb>>`). Stages that work in place on numpy arrays work here on an `array2<Rgb>`, and `Grid` reads the frame back out. The module also holds numpy's clip to [0, 255] and the element-wise maps.
- **Effects** (`effects.dfy`):
  - grain (`add_noise_vectorized`), with its numpy int16 wrap-around written out;
  - chromatic aberration (`apply_chromatic_aberration`), overwriting the red and blue planes in place;
  - jitter (`apply_jitter`), a cyclic 2-D roll.
  - `np.roll`'s index arithmetic is `Source`, proved equal to Python's floor `(x - k) mod n`.
- **Grades** (`grades.dfy`): the integer stages of the Terracotta Sun, Portra 800 and Reala Ace grades. Each does the per-channel shift in place on the int16 array, clips, and adds grain.
- **LightLeaks** (`lightleaks.dfy`):
  - the `LightLeakManager` class, whose fields are state, opacity, duration counter and active leak index;
  - its four-phase machine as a pure `Step`, with the reachable-state invariant and the timing of a whole leak;
  - the additive blend.
- **Overlay** (`overlay.dfy`): the layout arithmetic of `create_timestamp_overlay`. This covers Python's `str.strip()`, the anchors of the date and the message, and the twelve halo draws around each text.
- **Pipeline** (`pipeline.dfy`): the stage order of `process_frame`.

Every random draw is a parameter whose range the generator guarantees:

- the noise field, each offset in [-amount, amount];
- the jitter offsets dx and dy;
- `LeakDraw(chance, pick, hold)` for `random.random()`, `random.randint(0, n - 1)` and `random.randint(10, 30)`.

Opacity is exact, in hundredths: 0.05 is 5, 0.03 is 3, 0.8 is 80 and the 0.01 threshold is 1.

The PIL calls are inputs:

- the enhanced image a grade's integer stage starts from;
- the grade and overlay-composite functions of `process_frame`;
- the text boxes and the integer paddings of the overlay.

## Model

| member | source | states |
|---|---|---|
| Frames.Clip | video_vintage.py:112 | np.clip to [0, 255]: the result is an 8-bit value, equals the input when that is in range, and is the nearest 8-bit value otherwise |
| Frames.ClipFrame | video_vintage.py:112 | clipping a frame makes every channel 8-bit, keeps its shape, and leaves an 8-bit frame unchanged |
| Frames.ToArray | video_vintage.py:242 | np.array of an image: a fresh H x W array holding exactly the frame's pixels |
| Frames.Grid | video_vintage.py:461 | the frame an H x W array holds: H rows of W pixels, pixel (y, x) being the array's element (y, x) |
| Frames.MapInPlace | video_vintage.py:254-256 | an in-place element-wise update leaves the array holding the mapped frame |
| Effects.Source | video_vintage.py:122-124 | the column np.roll reads for output column x is a valid index of the axis; SourceIsMod gives its value |
| Effects.SourceIsMod | video_vintage.py:122-124 | the index np.roll reads for output index x is (x - k) mod n with floor modulo |
| Effects.SourceBack | video_vintage.py:138-139 | a roll by k after a roll by -k reads every index from itself |
| Effects.SourceTwice | video_vintage.py:138-139 | a roll by k after a roll by k' reads as one roll by k + k' |
| Effects.Int16 | video_vintage.py:111 | int16 arithmetic wraps: the result lies in [-32768, 32767], differs from the true sum by a multiple of 65536, and equals it inside that range |
| Effects.AddNoise | video_vintage.py:102-112 | amount <= 0 returns the frame itself; otherwise the shape is kept and every channel is 8-bit |
| Effects.NoiseStaysNear | video_vintage.py:108-112 | for amounts at which int16 cannot wrap (at most 32767 - 255), each channel of an 8-bit frame becomes clip(in + n) for its drawn n and moves by at most the amount |
| Effects.NoiseWrapsAtLimit | video_vintage.py:108-111 | at amount 32767 the int16 sum wraps: white plus the largest offset comes out black |
| Effects.NoiseNearAnyAmount | video_vintage.py:108-112 | on an 8-bit frame each output channel is within the amount of its input for every amount the int16 draw allows, including those where the int16 sum wraps |
| Effects.ZeroNoiseIsIdentity | video_vintage.py:108-112 | an all-zero draw leaves an 8-bit frame unchanged |
| Effects.Aberrated | video_vintage.py:114-126 | shift 0 returns the frame; otherwise each output row is AberratedRow of the input row, and a rectangular frame keeps its height and width |
| Effects.RollRedRow | video_vintage.py:122 | one row of the red-plane roll keeps the row's length; RollRedRowAt gives each pixel |
| Effects.RollBlueRow | video_vintage.py:124 | one row of the blue-plane roll keeps the row's length; RollBlueRowAt gives each pixel |
| Effects.RollRed | video_vintage.py:122 | the red-plane roll of a frame rolls every row by RollRedRow |
| Effects.RollBlue | video_vintage.py:124 | the blue-plane roll of a frame rolls every row by RollBlueRow |
| Effects.AberratedRow | video_vintage.py:121-124 | one aberrated row keeps its length; AberratedRowAt gives each pixel |
| Effects.RollRedRowAt | video_vintage.py:122 | rolling the red plane replaces only red, taken from column Source(x, k, W) |
| Effects.RollBlueRowAt | video_vintage.py:124 | rolling the blue plane replaces only blue, taken from column Source(x, k, W) |
| Effects.AberratedRowAt | video_vintage.py:121-124 | in one row: red from column (x + shift) mod W, green in place, blue from column (x - shift) mod W |
| Effects.AberratedAt | video_vintage.py:121-124 | the same pixel by pixel for a whole frame |
| Effects.AberratedValid | video_vintage.py:114-126 | aberration keeps an 8-bit frame 8-bit |
| Effects.AberratedRowUndone | video_vintage.py:121-124 | one row aberrated by shift and then by -shift is restored |
| Effects.AberrationUndone | video_vintage.py:114-126 | aberration by -shift undoes aberration by shift, so no pixel data is lost |
| Effects.RollRedRowInPlace | video_vintage.py:122 | overwriting row y's red values in place gives that row of the rolled plane and touches no other row |
| Effects.RollRedInPlace | video_vintage.py:122 | the in-place red roll leaves the array holding RollRed of its old contents |
| Effects.RollBlueRowInPlace | video_vintage.py:124 | the same for row y's blue values |
| Effects.RollBlueInPlace | video_vintage.py:124 | the in-place blue roll leaves the array holding RollBlue of its old contents |
| Effects.ApplyChromaticAberration | video_vintage.py:114-126 | the in-place red-then-blue rolls leave the array holding Aberrated of its old contents |
| Effects.RollRow | video_vintage.py:138 | one row of np.roll(arr, k, axis=1) keeps its length and reads column Source(x, k, W) |
| Effects.RollColumns | video_vintage.py:138 | np.roll along axis 1 rolls every row by RollRow |
| Effects.RollRows | video_vintage.py:139 | np.roll along axis 0: row y is input row Source(y, k, H) |
| Effects.Jitter | video_vintage.py:128-141 | max_shift 0 returns the frame; otherwise the shape is kept |
| Effects.JitterAt | video_vintage.py:138-139 | out[y][x] == in[(y - dy) mod H][(x - dx) mod W] |
| Effects.JitterValid | video_vintage.py:128-141 | jitter keeps an 8-bit frame 8-bit |
| Effects.RollsCompose | video_vintage.py:138-139 | two 2-D rolls compose into one roll by the summed offsets |
| Effects.RollZero | video_vintage.py:138-139 | a 2-D roll by (0, 0) is the identity |
| Effects.JitterUndone | video_vintage.py:128-141 | jitter by (-dx, -dy) undoes jitter by (dx, dy): it permutes pixels |
| Grades.PortraShift | video_vintage.py:274-276 | the (+19, +10, -33) shift; on an 8-bit pixel the int16 sums are exact (PortraPixel gives the clipped result) |
| Grades.RealaShift | video_vintage.py:294-296 | the (-11, +10, +11) shift; on an 8-bit pixel the int16 sums are exact (RealaPixel gives the clipped result) |
| Grades.BlueCast | video_vintage.py:246-247 | the mask b > floor((r + g) / 2) + 30 on the unshifted pixel; TerracottaPixel states what each side of it does |
| Grades.TerracottaShift | video_vintage.py:250-256 | the masked shift; on an 8-bit pixel the int16 sums are exact (TerracottaPixel gives the clipped result) |
| Grades.Graded | video_vintage.py:254-258 | shift then clip gives an 8-bit frame of the same shape |
| Grades.GradedAt | video_vintage.py:254-258 | each graded pixel is the clipped shift of that pixel |
| Grades.PortraPixel | video_vintage.py:274-278 | Portra saturates red + 19 and green + 10 at 255 and floors blue - 33 at 0 |
| Grades.PortraWhite | video_vintage.py:274-278 | a white pixel becomes (255, 255, 222) |
| Grades.RealaPixel | video_vintage.py:294-298 | Reala floors red - 11 at 0 and saturates green + 10 and blue + 11 at 255 |
| Grades.TerracottaPixel | video_vintage.py:246-258 | blue-cast pixels (b > floor((r + g) / 2) + 30) get (15, -10, -70), others (40, -5, -35); red never drops, green and blue never rise, and a blue-cast pixel ends no bluer than the warm shift would leave it |
| Grades.TerracottaShiftsMeet | video_vintage.py:246-258 | the two shifts can give the same output: (250, 0, 10) has no blue cast and comes out as the cool shift would leave it |
| Grades.GradeStage | video_vintage.py:242-261 | int16 array, in-place shift, clip, then grain: the result is AddNoise of the graded frame, and is 8-bit with the input's shape |
| Grades.PortraSim | video_vintage.py:271-281 | the Portra stage is grain 15 over the clipped (+19, +10, -33) shift, 8-bit |
| Grades.RealaSim | video_vintage.py:291-301 | the Reala stage is grain 5 over the clipped (-11, +10, +11) shift, 8-bit |
| Grades.TerracottaSim | video_vintage.py:242-261 | the Terracotta stage is grain 5 over the clipped masked shift, 8-bit |
| Grades.QuietGrainIsGrade | video_vintage.py:258-261 | with an all-zero grain draw a stage returns its clipped shift |
| LightLeaks.Step | video_vintage.py:175-196 | one update of the machine: the phase stays or moves to the next in the cycle idle, fade_in, active, fade_out; the leak index changes only when a leak starts; opacity is unchanged while active (StepInv and StepEffect give the rest) |
| LightLeaks.Run | video_vintage.py:170-196 | one update per draw, in order; RunInv, RunAppend and the timing lemmas state its properties |
| LightLeaks.InitialInv | video_vintage.py:148-151 | the state __init__ sets (idle, opacity 0, counter 0, index -1) is reachable-state valid |
| LightLeaks.StepInv | video_vintage.py:175-196 | each update keeps the invariant: opacity in [0, 0.8], 0 when idle, and a loaded leak chosen whenever opacity is positive |
| LightLeaks.StepEffect | video_vintage.py:175-196 | the whole new state phase by phase: idle stays exactly as it was unless the draw is < 0.02, and then fades in at opacity 0 with the picked leak and the counter kept; fade-in adds 0.05 and stays fading in below 0.75, and from 0.75 becomes active at 0.8 with counter = the drawn hold; active keeps opacity and decrements the counter, fading out exactly from counter 1; fade-out subtracts 0.03 and stays fading out above 0.03, otherwise goes idle at exactly 0 |
| LightLeaks.IdleWaits | video_vintage.py:175-179 | an idle machine stays exactly as it is, at opacity 0, while every draw is at least 0.02 |
| LightLeaks.RunInv | video_vintage.py:175-196 | the invariant holds after any run of updates |
| LightLeaks.RunAppend | video_vintage.py:170-196 | updates over two runs of draws compose |
| LightLeaks.FadeInTakes | video_vintage.py:181-185 | from fade-in at 0.05k full opacity 0.8 is reached after 16 - k calls, with the last draw's hold, and not before |
| LightLeaks.ActiveTakes | video_vintage.py:187-190 | full opacity lasts exactly `duration_counter` calls, then fade-out starts at 0.8 |
| LightLeaks.FadeOutTakes | video_vintage.py:192-196 | fade-out from opacity o lasts ceil(o / 0.03) calls and ends idle at exactly 0, and not before |
| LightLeaks.LeakCycle | video_vintage.py:175-196 | a started leak returns the machine to idle at opacity 0 after 44 + H calls for hold H |
| LightLeaks.BlendChannel | video_vintage.py:204-205 | one blended channel, frame + leak * opacity clipped and floored, is 8-bit |
| LightLeaks.BlendRgb | video_vintage.py:204-205 | one blended pixel is 8-bit |
| LightLeaks.BlendChannelProps | video_vintage.py:204-205 | one blended channel is 8-bit, no lower than the frame's, the frame's at opacity 0, and monotone in opacity |
| LightLeaks.BlendRgbProps | video_vintage.py:204-205 | the same for one pixel |
| LightLeaks.LeakBlendProps | video_vintage.py:199-205 | the blend of an 8-bit frame and leak is 8-bit, no darker than the frame, the frame itself at opacity 0, and brighter as opacity rises |
| LightLeaks.LeakBlend | video_vintage.py:204-205 | the blend keeps the frame's shape |
| LightLeaks.Visible | video_vintage.py:199-207 | what apply returns after the update keeps the frame's shape and is the frame itself when opacity is at most 0.01 |
| LightLeaks.VisibleWhen | video_vintage.py:199-207 | in every reachable state the 0.01 threshold hides exactly opacity 0: an idle machine and a fade-in's first frame show no leak, full opacity shows the leak at 0.8 |
| LightLeaks.LightLeakManager.constructor | video_vintage.py:146-151 | a new manager holds the loaded leaks and starts idle at opacity 0, counter 0, index -1 |
| LightLeaks.LightLeakManager.Apply | video_vintage.py:170-207 | with no leaks the frame and every field are unchanged; otherwise the fields take one Step and the result is the blend when opacity > 0.01, else the frame itself |
| Overlay.LeadingSpace | video_vintage.py:73 | the leading whitespace run of the message ends at the first non-whitespace character |
| Overlay.TrailingSpace | video_vintage.py:73 | the trailing whitespace run starts after the last non-whitespace character |
| Overlay.IsSpace | video_vintage.py:73 | the 29 code points for which Python's str.isspace() holds and which str.strip() removes: U+0009-000D, U+001C-0020, U+0085, U+00A0, U+1680, U+2000-200A, U+2028, U+2029, U+202F, U+205F, U+3000 (SpaceBoundary names the nearest non-members) |
| Overlay.SpaceBoundary | video_vintage.py:73 | space, tab and U+3000 are whitespace; U+0008, U+000E, U+001B, '!', the zero-width space U+200B, U+180E and U+FEFF are not, so strip() keeps them |
| Overlay.Strip | video_vintage.py:73 | the stripped message is no longer than the message and neither starts nor ends with whitespace |
| Overlay.StripIsTrim | video_vintage.py:73 | strip() returns a slice of the message with only whitespace cut from either end, and no whitespace at its ends |
| Overlay.StripEmptyIffBlank | video_vintage.py:73-74 | the stripped message is empty exactly when the message is all whitespace |
| Overlay.StripIdempotent | video_vintage.py:73 | stripping twice strips nothing more |
| Overlay.Ring | video_vintage.py:87-90 | the four halo draws at distance i, in drawing order |
| Overlay.Halo | video_vintage.py:86-90 | twelve halo draws per text (HaloAt and HaloShape give their positions) |
| Overlay.RingsAbove | video_vintage.py:86-90 | the rings for distances 3 down to i + 1 hold 4 draws each |
| Overlay.Glow | video_vintage.py:85-90 | the glow list holds 12 draws per text |
| Overlay.HaloAt | video_vintage.py:86-90 | the k-th halo draw is at distance 3 - k / 4 in direction (+i, +i), (-i, -i), (0, +i) or (0, -i) in that order |
| Overlay.RingShape | video_vintage.py:87-90 | each ring's four draws are within 3 pixels, off the text, and closed under mirroring through the text |
| Overlay.HaloShape | video_vintage.py:85-90 | twelve draws per text, all within 3 pixels and none on the text, point-symmetric about the text |
| Overlay.GlowAt | video_vintage.py:85-90 | the halo of text t occupies glow positions 12t to 12t + 11 |
| Overlay.HaloDraws | video_vintage.py:86-90 | the inner loop over i = 3, 2, 1 emits exactly Halo of the text: its twelve draws in ring and direction order |
| Overlay.GlowDraws | video_vintage.py:85-90 | the outer loop over the texts emits exactly Glow of the texts: each text's twelve halo draws, text by text |
| Overlay.DatePos | video_vintage.py:66-68 | the date's anchor: x = padding_x and y + box height + padding_y == height |
| Overlay.MessagePos | video_vintage.py:75-77 | the message's anchor: y = padding_y and x + box width + padding_x == width |
| Overlay.CreateTimestampOverlay | video_vintage.py:60-90 | the date's anchor is x = padding_x with y + box height + padding_y == height; the stripped message is placed, exactly when the message is not all whitespace, at the anchor with x + box width + padding_x == width and y = padding_y; the glow list is each text's 12 halo draws, text by text |
| Pipeline.Staged | video_vintage.py:463-467 | the optional aberration and jitter keep the frame's shape |
| Pipeline.StagedValid | video_vintage.py:463-467 | they keep an 8-bit frame 8-bit, and with both disabled they do nothing |
| Pipeline.StagedUndone | video_vintage.py:463-467 | jitter by (-dx, -dy) and aberration by -2 restore the composited frame |
| Pipeline.ProcessFrame | video_vintage.py:448-472 | grade, composite, aberration if enabled (in place), jitter if enabled, then the leak manager's apply when there is one; the manager's fields take one step, or none when it holds no leaks |

## Left out

- The PIL `ImageEnhance` contrast, brightness and colour calls and `apply_clarity_softening`'s Gaussian blur are library filters. Their result is the `enhanced` input of each grade stage.
- `apply_filter_modern_fuji_sim` and `apply_filter_dreamy_negative_sim` blend in float32 luma, which is floating-point numerics and is not modelled.
- Text rendering, fonts, `textbbox`, the glow blur and `alpha_composite` are foreign calls. Text boxes are inputs, and the overlay model produces the draw lists, not pixels.
- The overlay's font size `int(height * 0.025)` and paddings `int(width * 0.03)`, `int(height * 0.03)` are float products. The paddings are inputs.
- Effects.Jitter: a negative max_shift, for which random.randint raises ValueError on its empty range, is excluded by the draw precondition; process_frame only passes 1.
- Overlay.CreateTimestampOverlay: the positions are PIL anchors. PIL draws the ink offset from its anchor by the (left, top) corner of the text's box, so the date's ink ends at height - padding_y + top and the message's ink at width - padding_x + left; the model states the anchors only.
- The random sources (`np.random.randint`, `random.random`, `random.randint`, `random.sample`) are not modelled; their draws are parameters with range preconditions.
- Leak loading (`glob`, `Image.open`, resizing, skipped files) is I/O. The constructor takes the leaks that loaded, at most five, each of the video's size.
- Video decoding and encoding with moviepy, the codec fallback, encoder threads and logging are I/O.
- `get_user_inputs` reads from the console. Its choices arrive as `ProcessFrame`'s flags and functions.
- LightLeaks.Step: opacity is counted in exact hundredths. The Python floats differ from those by rounding (0.15000000000000002, 0.39999999999999997, 0.8000000000000002, ...), and that difference reaches only the blend's `leak * opacity` products: sixteen `+= 0.05` steps from 0.0 reach at least 0.8, twenty-seven `-= 0.03` steps from there end at or below 0.01 with the last visible value 0.02, so the phase lengths and the 0.01 visibility cut are the ones the model has.
- LightLeaks.BlendChannel: the blend is exact real arithmetic floored to an integer; float32 rounding of `leak * opacity` is not modelled.
- Grades.GradeStage: the three per-channel passes `arr[..., k] += shift` are one per-pixel map in place. They touch disjoint channels and use only pre-computed masks, so the result is the same.
- Effects.AddNoise: the noise field is drawn once per frame and passed in; the `amount <= 32767` bound is the one numpy's int16 draw imposes.
- Frames: the RGBA conversions around the overlay composite are part of the composite function.
