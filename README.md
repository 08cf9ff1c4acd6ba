# Overlay timeline model

`render_overlay` in `main.py` generates a looping branding overlay: a banner
holding a brand name with an underline, a logo, and an accent stroke behind
the logo. All five animated tracks share one cycle of
`in_duration + sustain_duration + out_duration` seconds. The function turns
phase durations in seconds into keyframe offsets in percent of that cycle
(`sec / total * 100`), and it derives some boundaries from others:

- logo-in starts when text-in ends and is cut off at the end of the fade-in phase;
- the stroke reveal starts exactly when logo-in ends and is cut off at the end of the cycle;
- the stroke hide starts no earlier than 0s and ends exactly when the hold phase ends.

Those offsets become the stop lists of the five `@keyframes` rules.

This project models that computation in Dafny with durations and offsets as
exact reals:

- `timing.dfy` (module `Timing`) covers the configuration, the conversion
  between seconds and percent, the timing block with its one error path, and
  lemmas on the bounds, ordering and coupling of the boundaries.
- `keyframes.dfy` (module `Keyframes`) covers the stop list of each track as
  offsets paired with named poses. Its lemmas say exactly when each track's
  offsets run forwards.

What the proofs show about the code:

- The hold end is exactly `(in + sustain) / total * 100`. The stroke hide ends there.
- The stroke reveal starts exactly where logo-in ends.
- For a positive total, logo-in never ends after the fade-in phase.
- For a positive total, the stroke reveal never ends after 100%, and the
  stroke hide never starts before 0%. For a negative total either bound can
  fail.
- For a positive total, when `text_in_anim` runs past `in_duration` the
  logo's window runs backwards: start after end. Nothing in the code keeps
  `text_in_anim` within `in_duration`. With the form's defaults and a 5s
  text-in, logo-in starts at 27.78% and ends at 22.22%.
- For a positive total, the stroke hide window runs forwards exactly when the
  hide length is not negative and `in + sustain >= 0`.
- For a positive total, the hold end is at most 100% exactly when
  `out_duration >= 0`. The banner, text and underline offsets are sorted
  exactly when `0 <= text_in_anim <= in + sustain` and `out_duration >= 0`.
- The stroke's "just before" stop is `p_stroke_reveal_start - 0.01`. When
  logo-in ends at 0s (no text-in and no logo-in time), that stop falls at
  -0.01%, before the 0% stop.

Facts about `main.py` that the model keeps:

- The code clamps only the logo-in end (to `in_duration`), the stroke reveal
  end (to `total`) and the stroke hide start (to `0`). Text-in end and
  logo-in start are not clamped.
- Only a total of exactly zero fails: the division raises
  `ZeroDivisionError`, which the form's handler reports. A negative total
  runs through the formulas and is modelled that way (`Timing.Compile`).
- The model covers the five tracks `main.py` defines: banner, text,
  underline, logo and stroke. The underline uses the text-in end and the
  hold end.

## Model

| member | source | states |
|---|---|---|
| `Timing.Min` | main.py:35 | the result is at most both arguments and is one of them (Python's `min`) |
| `Timing.Max` | main.py:41 | the result is at least both arguments and is one of them (Python's `max`) |
| `Timing.TotalDuration` | main.py:30 | with no phase of negative length, the cycle is zero, and the division fails, exactly when all three phases are zero |
| `Timing.HoldEndSeconds` | main.py:32 | the hold end plus the exit phase is the whole cycle; the hold end is within the cycle exactly when `out_duration >= 0` |
| `Timing.LogoInEndSeconds` | main.py:35 | logo-in ends at the earlier of `in_duration` and `text_in_anim + logo_in_anim`: at most both and equal to one |
| `Timing.StrokeRevealEndSeconds` | main.py:38 | the reveal ends at the earlier of `total` and logo-in end plus the reveal length: at most both and equal to one |
| `Timing.StrokeHideStartSeconds` | main.py:41 | the hide starts at the later of 0s and hold end minus the hide length: at least both and equal to one |
| `Timing.Percent` | main.py:31-42 | the offset `p` of `sec` seconds in a cycle of `total` satisfies `p * total == sec * 100` |
| `Timing.Seconds` | main.py:31-42 | the instant `sec` an offset `p` stands for satisfies `sec * 100 == p * total` |
| `Timing.PercentRoundTrip` | main.py:31-42 | converting seconds to percent and back, or percent to seconds and back, gives the starting value |
| `Timing.PercentOrder` | main.py:31-42 | for a positive total, offsets compare (`<=`, `<`, `==`) exactly as their instants compare |
| `Timing.PercentRange` | main.py:31-42 | for a positive total, 0s maps to 0% and `total` to 100%; an offset is at least 0 iff its instant is, and at most 100 iff its instant is at most `total` |
| `Timing.ComputeBoundaries` | main.py:30-43 | total is the sum of the three phases; each offset is its instant as a percentage of the total (`p_in_end`, `p_hold_end` for `in + sustain`, `p_text_in_end`, `p_logo_in_start`, `p_logo_in_end`, `p_stroke_reveal_end`, `p_stroke_hide_start`, each as `p * total == sec * 100`); `p_stroke_hide_end == p_hold_end`; `p_stroke_reveal_start == p_logo_in_end`; logo-in starts at `text_in_anim`; logo-in end, stroke reveal end and stroke hide start are the clamped instants `LogoInEndSeconds`, `StrokeRevealEndSeconds` and `StrokeHideStartSeconds` |
| `Timing.Compile` | main.py:30-32 | fails with a division error iff the total is zero, and otherwise yields the boundaries |
| `Timing.LogoInEndsWithinFadeIn` | main.py:31-37 | for a positive total, `p_logo_in_end <= p_in_end`, with equality iff `text_in_anim + logo_in_anim >= in_duration` |
| `Timing.HoldEndWithinCycle` | main.py:30-32 | for a positive total, `p_hold_end <= 100` iff `out_duration >= 0`, and `p_hold_end >= 0` iff `in + sustain >= 0` |
| `Timing.StrokeWindowsWithinCycle` | main.py:38-42 | for a positive total, `p_stroke_reveal_end <= 100` and `p_stroke_hide_start >= 0` |
| `Timing.LogoWindowOrdered` | main.py:34-37 | for a positive total, `p_logo_in_start <= p_logo_in_end` iff `text_in_anim <= in_duration` and `logo_in_anim >= 0` |
| `Timing.LogoWindowInverted` | main.py:34-37 | for a positive total, `text_in_anim > in_duration` gives `p_logo_in_end < p_logo_in_start` |
| `Timing.StrokeRevealWindowOrdered` | main.py:37-40 | for a positive total, the reveal window runs forwards iff the reveal length is not negative and logo-in ends by the end of the cycle |
| `Timing.StrokeHideWindowOrdered` | main.py:41-43 | for a positive total, `p_stroke_hide_start <= p_stroke_hide_end` iff the hide length is not negative and `in + sustain >= 0` |
| `Keyframes.BannerTrack` | main.py:101-106 | four stops at 0%, `p_text_in_end`, `p_hold_end` and 100%; transparent and in the same lifted pose at both ends; at rest and opaque from text-in end to hold end |
| `Keyframes.TextTrack` | main.py:107-112 | four stops at 0%, `p_text_in_end`, `p_hold_end` and 100%; shifted left at 0% and raised at 100%, transparent at both; at rest and opaque from text-in end to hold end |
| `Keyframes.UnderlineTrack` | main.py:113-118 | four stops at 0%, `p_text_in_end`, `p_hold_end` and 100%; collapsed at 0% and collapsed toward its right edge at 100%, transparent at both; full width and opaque from text-in end to hold end |
| `Keyframes.LogoTrack` | main.py:119-125 | five stops at 0%, `p_logo_in_start`, `p_logo_in_end`, `p_hold_end` and 100%; holds its entry pose, shifted right, from 0% to logo-in start; at rest and opaque from logo-in end to hold end; lifted at 100%; transparent at both ends |
| `Keyframes.StrokeTrack` | main.py:126-135 | eight stops from 0% to 100%, with the transitions at `p_stroke_reveal_start`, `p_stroke_reveal_end`, `p_stroke_hide_start` and `p_stroke_hide_end`; hidden up to 0.01 points before the reveal start, opaque but clipped at the reveal start, revealed from reveal end up to the hide start, and hidden again from hide end to 100%; each "just before" stop is 0.01 points before its transition |
| `Keyframes.TracksCoupled` | main.py:39-43 | on the tracks themselves, the stroke turns opaque at the logo's rest stop, and the stroke's hide end is the stop where logo, banner, text and underline leave their rest poses, which is the hold end `(in + sustain) / total * 100` |
| `Keyframes.EntryExitTracksSorted` | main.py:101-118 | banner, text and underline share their offsets, and these are sorted iff `0 <= text_in_anim <= in + sustain` and `out_duration >= 0` |
| `Keyframes.LogoTrackSorted` | main.py:119-125 | the logo offsets are sorted iff `0 <= text_in_anim <= in_duration`, `logo_in_anim >= 0`, logo-in ends by the hold end, and `out_duration >= 0` |
| `Keyframes.EntryExitAndLogoTracksSorted` | main.py:101-125 | with no phase of negative length, `0 <= text_in_anim <= in_duration` and `logo_in_anim >= 0`, the banner, text, underline and logo offsets are sorted |
| `Keyframes.LeadSeconds` | main.py:128-131 | the length in seconds whose offset is the 0.01-point lead of a "just before" stop |
| `Keyframes.StrokeTrackSorted` | main.py:126-135 | the stroke offsets are sorted iff all of these hold: logo-in ends at least one lead after 0s and by the end of the cycle; the reveal length is not negative; the hide starts at least one lead after the reveal ends; the hide length is not negative; `in + sustain >= 0`; `out_duration >= 0` |
| `Keyframes.InstantLogoInGivesNegativeStop` | main.py:126-128 | for any nonzero total, if `in_duration >= 0` and text-in plus logo-in take no time, the stroke's second stop is at -0.01% and the stroke offsets are not sorted |
| `Keyframes.DefaultOffsets` | main.py:30-37 | for the form's defaults (4s, 10s, 4s, text-in 1.6s, logo-in 1.2s), the total is 18s, text-in ends at 80/9 %, the hold phase at 700/9 % and logo-in at 140/9 % |
| `Keyframes.DefaultStrokeTrackSorted` | main.py:126-135 | for the form's defaults (stroke reveal and hide 0.6s), the stroke offsets are sorted |
| `Keyframes.DefaultStrokeSeconds` | main.py:30-42 | for the form's defaults, the cycle is 18s, the 0.01-point lead is 0.0018s, logo-in ends at 2.8s, the stroke reveal ends at 3.4s and the stroke hide starts at 13.4s |
| `Keyframes.LongTextInOffsets` | main.py:34-37 | for the defaults with a 5s text-in, logo-in starts at 250/9 % and ends at 200/9 % |
| `Keyframes.LongTextInRunsLogoBackwards` | main.py:119-125 | for the defaults with a 5s text-in, the logo offsets are not sorted |

The form's default values come from `main.py:210-231`. They are written out
in `Timing.DefaultConfig`.

## Left out

- HTML and CSS text, and the Jinja rendering (main.py:45-159, 166-192). The
  model has each track's stops as offsets and named poses, not as text.
- The `|round(4)` filter. Offsets in the model are unrounded. In the source,
  the "just before" stops are the rounded offset minus 0.01. The ordering
  lemmas are about unrounded values, so they do not cover two offsets that
  rounding makes equal.
- Filesystem effects (main.py:160-165, 193-194). `render_overlay` creates
  `assets` first. It then raises `FileNotFoundError` if the logo is missing,
  so `overlay.html` is never written. The divide that fails on a zero total
  (main.py:31) runs before any of this.
- The `App` form: fields, dialogs, message boxes, and the float/int coercion
  of inputs (main.py:196-354). It is user-interface code.
- IEEE floating point, NaN and infinities. Every duration and offset is a
  Dafny `real`.
- Values forwarded unchanged into the document: colours, CSS size strings,
  pixel distances, `stroke_scale`, brand and tagline text. The poses name
  where those distances apply but do not carry them.
- `p_in_end` is computed and passed to the template, but no keyframe uses
  it. The model keeps it in `Timing.Boundaries` and uses it only in
  `Timing.LogoInEndsWithinFadeIn`.
