# Falling-DNA animation: a Dafny model

This project models the arithmetic behind the falling-DNA background animation
of the Peakline site. The animation keeps a fixed pool of `Sequence` strands.
Each strand is a column of characters cut from a fixed coding sequence (`CAS9`).
It has a random length, an optional lower-case fold, and a random depth `z`.
The depth sets the strand's font size and speed. Each frame clears the canvas.
Then every strand paints its characters, stacked upwards from its `y`, and falls
by its speed. A strand that has fallen past the bottom is rolled again from
scratch.

The model is functional. Every call of the platform random generator becomes an
explicit draw in [0, 1) (`Random.Draw`). The canvas size and the reference
sequence become a `Setup.Scene`. The configuration constants become a
`Setup.Config`, with `Setup.Defaults` holding the values the page ships with.
Painting becomes a list of `Paint` commands. Positions, depth and speed are
exact `real`s.

Modules, one per part of the script:

- `Random`: `random_float` and `random_int`.
- `JsString`: the two string built-ins the script relies on, `substr` and `toLowerCase`.
- `Setup`: the configuration constants, `SEQ_PADDING`, and the scene.
- `Particles`: the `Sequence` type: `cas9_nmer`, `init`, `draw`, and multi-frame traces.
- `Animation`: pool creation at load time, and one frame of `update`.

The invariant `Particles.Inv` holds of every strand between frames:

- the length lies within the configured bounds;
- the text has exactly that many characters and is a window of the reference, verbatim or lower-cased;
- the font size and speed are the ones its depth gives, and lie within their bounds;
- the speed is positive;
- the strand lies inside the canvas width whenever it fits;
- `height` is the font size times the length.

`Init` establishes the invariant and `Advance` preserves it.

## Model

| member | source | states |
|---|---|---|
| `Random.RandomFloat` | static/js/dna_animation.js:146-154 | a draw maps into [min, max) for min < max, to min when they are equal, and into (max, min] when reversed |
| `Random.RandomFloatOnto` | static/js/dna_animation.js:146-154 | every value of [min, max) is reached by some draw, so the range is the whole interval |
| `Random.RandomFloatMonotone` | static/js/dna_animation.js:146-154 | a larger draw never gives a smaller value on an increasing interval |
| `Random.RandomInt` | static/js/dna_animation.js:160-168 | for integer min < max the result is an integer in [min, max - 1], so max itself is never produced; equal bounds give min |
| `Random.RandomIntOnto` | static/js/dna_animation.js:160-168 | every integer from min to max - 1 is produced by some draw, so the range is exactly [min, max - 1] |
| `JsString.Substr` | static/js/dna_animation.js:178 | the result is a contiguous run of the string; for an in-bounds start and length it is exactly that window, of exactly that length |
| `JsString.ToLower` | static/js/dna_animation.js:80 | folding keeps the length, leaves no upper-case letter, and spells the same text ignoring case |
| `JsString.ToLowerUnique` | static/js/dna_animation.js:80 | any lower-case string that spells `s` ignoring case is `ToLower(s)`, so the contract above determines the fold |
| `JsString.ToLowerFixedIff` | static/js/dna_animation.js:80 | folding leaves a string unchanged if and only if it is already lower-case |
| `JsString.ToLowerIdempotent` | static/js/dna_animation.js:80 | folding twice is folding once |
| `Particles.StartIndex` | static/js/dna_animation.js:177 | the window's start is in [0, SEQ_PADDING - 1] (0 when the padding is 0), so even a maximum-length window ends inside the reference |
| `Particles.Nmer` | static/js/dna_animation.js:174-183 | the sample is a contiguous window of the reference; for 0 <= n <= MAX_SEQ_LEN it has exactly n characters |
| `Particles.FontSize` | static/js/dna_animation.js:85 | for z in [1, 10) the font size is an integer between MIN_FONT_SIZE and MAX_FONT_SIZE |
| `Particles.Speed` | static/js/dna_animation.js:86 | for z in [1, 10) the speed lies in [MIN_SPEED, MAX_SPEED], and above MIN_SPEED whenever MIN_SPEED < MAX_SPEED |
| `Particles.FontSizeMonotone` | static/js/dna_animation.js:84-85 | a deeper strand never gets a larger font |
| `Particles.SpeedMonotone` | static/js/dna_animation.js:84-86 | a deeper strand never falls faster, and falls strictly slower when the speed range is not empty |
| `Particles.Init` | static/js/dna_animation.js:72-95 | a freshly rolled strand starts with y in [-100, 0) and, in a valid scene, satisfies the strand invariant (length bounds, exact text length, text sampled from the reference, font size and speed bounds, positive speed, x inside the width, height = font size * length) |
| `Particles.InitLowercaseIff` | static/js/dna_animation.js:79-81 | against an upper-case reference, a non-empty strand is lower-case if and only if its case draw is at least FRAC_UPPERCASE; either way it spells its sampled window ignoring case |
| `Particles.CaseScenarios` | static/js/dna_animation.js:18-18 | with FRAC_UPPERCASE = 0 every strand is lower-case; with FRAC_UPPERCASE = 1 every strand is a verbatim window of the reference |
| `Particles.ShippedDefaults` | static/js/dna_animation.js:13-20 | the shipped constants are valid; with the 1000-character reference the padding is 850, and every strand has 25 to 149 characters, a font size from 1 to 70 and a speed in (1, 20] |
| `Particles.FixedLengthScenario` | static/js/dna_animation.js:75-76 | with MIN_SEQ_LEN = MAX_SEQ_LEN every strand has exactly that many characters |
| `Particles.Advance` | static/js/dna_animation.js:113-118 | without recycling, y grows by the speed, stays at or below height + HEIGHT, and no other field changes; with recycling, the result is exactly `Init` applied to the step's draws, a full re-roll with y in [-100, 0); the strand invariant is preserved either way |
| `Particles.GlyphColumn` | static/js/dna_animation.js:108-110 | with a positive font size, a later character is painted strictly higher, in the same column |
| `Particles.Draw` | static/js/dna_animation.js:101-120 | `draw` paints exactly one glyph per character: entry i is character i at (x, y - i * font_size), with y strictly decreasing in i; the new state is the `Advance` step |
| `Particles.Trace` | static/js/dna_animation.js:113-118 | the states over successive frames: state k + 1 is the step from state k |
| `Particles.RecyclesWithin` | static/js/dna_animation.js:113-118 | a strand with y + n * speed > height + HEIGHT is recycled within its next n frames |
| `Animation.Populate` | static/js/dna_animation.js:186-189 | the start-up pool has exactly NUM_SEQS strands, each starting above the top edge and, in a valid scene, satisfying the strand invariant |
| `Animation.Tick` | static/js/dna_animation.js:126-140 | a frame is one background fill followed by every strand's glyphs in pool order, each painted from its state before the frame; strand k steps with its own draws; the pool keeps its size; the strand invariant is preserved |

## Left out

- Canvas and DOM: looking up the canvas element and sizing it from the window (lines 25-30) are left out. The width and height are parameters of `Setup.Scene`.
- Drawing side effects: `fillStyle`, the `font` string and `fillText`/`fillRect` become `Paint` commands. Colours and the font family are not modelled.
- Scheduling: the `requestAnimationFrame` self-rescheduling (line 138) is an unbounded platform-driven loop. `Animation.Tick` models one frame, and `Particles.Trace` models several frames of one strand.
- The random generator: each `Math.random()` result is a `Random.Draw` parameter. `Draw` and `Tick` take a full set of re-roll draws for every strand; those draws are used only if the strand recycles.
- Floating point: depth, speed and positions use exact real arithmetic, not IEEE-754 doubles. Rounding in `z`, `speed`, `x` and `y` is not modelled.
- The reference sequence's contents (lines 33-48): the reference is an opaque string. `Setup.Scene.Valid` requires it to be at least MAX_SEQ_LEN characters long.
- `JsString.ToLower`: folds only the ASCII letters A-Z, not all of Unicode. The reference contains only those letters.
- `Random.RandomInt`: takes integer bounds only. The script calls `random_int` only with integer constants.
- `Particles.Inv`: states the x bound only when the font size is below the canvas width. On a canvas narrower than the font, `random_float` returns a non-positive x.

Facts about the code that a reader might not expect:

- Lengths lie in [25, 149], because `random_int(MIN_SEQ_LEN, MAX_SEQ_LEN)` never returns its upper bound. A 150-character strand never appears.
- The window offset comes from `random_int(0, SEQ_PADDING)`, so it lies in [0, SEQ_PADDING - 1]. The last possible offset is never used.
- The speed `MIN_SPEED + SPEED_RANGE / z` with z < 10 is strictly above MIN_SPEED whenever the range is non-empty.
- The recycle test runs after the step. A strand is rolled again when `y + speed > height + HEIGHT`, in the same call.
- `Particles.RecyclesWithin` counts the start position. A strand starting at y < 0 needs y + n * speed > height + HEIGHT, not just n * speed > height + HEIGHT.
