# Mapical landing page: the logic behind the effects

Mapical's landing page is mostly animation and DOM wiring. Four scripts hold
small pieces of real logic, and this project models them in Dafny and
proves what they promise:

- the waitlist form (`src/form_handler.js`): the email pattern, the
  submission gate with its 2000 ms debounce, the classification of the
  endpoint's reply, and the marker classes on the input;
- the "magic dust" particle system (`src/magic_dust.js`): a fixed pool of
  particle elements with first-free acquisition, the variant draw, the
  grid sampler that turns the rendered word into points, and the text
  bursts cut into batches of eight;
- the compact audio player (`src/audio_player.js`): track rotation, the
  loop and play toggles, `m:ss` time labels, the wave's vertex grid, the
  progress ratio, the playhead's nearest-vertex search, and the state
  updates on `ended` and `loadedmetadata`;
- the preloader (`src/preloader.js`): the latch that waits for both the
  page load and a two-second minimum, the capped simulated progress, the
  final ramp, and the coordinates the counter shows.

Time, random numbers, rasters, layout boxes and server replies are inputs.
Timers and animation callbacks become events or explicit steps.

Files, one module each:

| file | module | models |
|---|---|---|
| `optional.dfy` | `Optional` | the `Option` type |
| `arith.dfy` | `Arith` | `Math.abs`, quotient and remainder facts |
| `decimal.dfy` | `Decimal` | `toString` and `padStart` for naturals |
| `form_handler.dfy` | `WaitlistForm` | `src/form_handler.js` |
| `particle_pool.dfy` | `ParticlePool` | the pool in `src/magic_dust.js` |
| `text_mask.dfy` | `TextMask` | `createTextParticleMap` |
| `text_burst.dfy` | `TextBurst` | `createTextBurst` |
| `audio_player.dfy` | `CompactPlayer` | `src/audio_player.js` |
| `preloader.dfy` | `Preloader` | `src/preloader.js` |

The email pattern `^[^\s@]+@[^\s@]+\.[^\s@]+$` is modelled as a
deterministic automaton (`WaitlistForm.IsValidEmail`). It is proved equal
to the plain description "local part, `@`, domain, `.`, top-level part, all
non-empty and free of whitespace and `@`". Whitespace is the ECMAScript set
used by both `\s` and `String.prototype.trim`.

## Model

| member | source | states |
|---|---|---|
| WaitlistForm.Trim | src/form_handler.js:88 | the trimmed email has no whitespace at either end and is no longer than the input |
| WaitlistForm.TrimIsFramed | src/form_handler.js:88 | the input is whitespace, then the trimmed email, then whitespace |
| WaitlistForm.TrimOfFramed | src/form_handler.js:88 | trimming returns exactly the core of any whitespace-framed string whose core has non-space ends |
| WaitlistForm.IsValidEmail | src/form_handler.js:367-369 | the pattern accepts a string exactly when it splits as L@D.T with L, D, T non-empty and free of whitespace and '@' |
| WaitlistForm.Step | src/form_handler.js:368 | whitespace never matches, '@' matches only right after the local part, other characters of the class keep a live state live, and acceptance is reached only through the '.' before the top level part |
| WaitlistForm.RunReject | src/form_handler.js:368 | after a mismatch no further input is accepted |
| WaitlistForm.AcceptsExactlyShape | src/form_handler.js:367-369 | the matcher run from its start state accepts exactly the L@D.T strings |
| WaitlistForm.ValidEmailFromParts | src/form_handler.js:367-369 | any such L, D and T assembled into L@D.T are accepted |
| WaitlistForm.ShortAddressAccepted | src/form_handler.js:367-369 | "a@b.co" is accepted |
| WaitlistForm.EmptyRejected | src/form_handler.js:367-369 | the empty string is rejected |
| WaitlistForm.NoAtRejected | src/form_handler.js:367-369 | "not-an-email" is rejected |
| WaitlistForm.NoAtNeverAccepted | src/form_handler.js:367-369 | no string without '@' is ever accepted |
| WaitlistForm.NoTldRejected | src/form_handler.js:367-369 | "a@b" is rejected |
| WaitlistForm.SetInputState | src/form_handler.js:355-360 | of "error" and "success" exactly the requested one remains, other classes are untouched |
| WaitlistForm.ClearInputState | src/form_handler.js:362-365 | neither marker remains and nothing else changes |
| WaitlistForm.ClearUndoesSet | src/form_handler.js:355-365 | clearing after setting a marker equals clearing alone |
| WaitlistForm.SetInputStateLastWins | src/form_handler.js:355-360 | two marker updates in a row leave only the second |
| WaitlistForm.CleanMessage | src/form_handler.js:311 | the shown text is a suffix of the message, and a message not starting with the warning sign is shown unchanged |
| WaitlistForm.CleanMessageStripsPrefix | src/form_handler.js:311 | the warning sign and the whitespace after it are removed and the rest is kept |
| WaitlistForm.GateBoundary | src/form_handler.js:64-75 | an idle form refuses a submit 1999 ms after the last one and accepts it at exactly 2000 ms; a form with a request in flight refuses at any time |
| WaitlistForm.GateStaysOpen | src/form_handler.js:64-75 | with the state unchanged, an open gate stays open as the clock advances |
| WaitlistForm.NewForm | src/form_handler.js:29-31 | a new form is idle with last submission time 0 |
| WaitlistForm.HideError | src/form_handler.js:344-353 | the error box loses "show" and "magic-message"; input markers are cleared only when the success box is not showing |
| WaitlistForm.ShowError | src/form_handler.js:308-318 | the cleaned message is shown in plain style and the input is marked exactly "error" |
| WaitlistForm.ShowMagicMessage | src/form_handler.js:320-342 | the "already listed" text is shown in magic style and the input is marked exactly "success" |
| WaitlistForm.ShowSuccess | src/form_handler.js:137-143 | the error box is hidden and the input is marked exactly "success" |
| WaitlistForm.OnInput | src/form_handler.js:56-61 | typing clears the markers and hides the error box |
| WaitlistForm.Submit | src/form_handler.js:77-94 | blocked exactly when the gate is closed, and then nothing changes; otherwise the time is recorded first; the request is sent exactly for a non-empty valid trimmed email, and an invalid one releases the flag and shows the error |
| WaitlistForm.Classify | src/form_handler.js:120-130 | each reply falls in exactly one of four outcomes: joined, already listed, retry, network failure |
| WaitlistForm.Complete | src/form_handler.js:98-134 | on every path the submission flag is released; each outcome shows its own message and only success clears the input |
| WaitlistForm.DebounceAfterAttempt | src/form_handler.js:64-94 | after any attempt that passed the gate, a submit within 2000 ms is blocked and changes nothing |
| WaitlistForm.ResubmitSoonAfterReplyIsBlocked | src/form_handler.js:64-134 | even after the reply, a submit 500 ms after the first is blocked |
| WaitlistForm.InFlightBlocksSubmit | src/form_handler.js:64-86 | while a request is in flight every submit is blocked |
| WaitlistForm.GateReopens | src/form_handler.js:64-134 | after the reply and 2000 ms the gate is open again |
| WaitlistForm.InvalidNeverSends | src/form_handler.js:88-94 | an invalid email never reaches the network and the gate reopens after the window |
| ParticlePool.CreatePool | src/magic_dust.js:11-55 | no slots on mobile, without a field or at width 320 or less; otherwise 900 slots, all free |
| ParticlePool.NoneShownMeansIdle | src/magic_dust.js:48-55 | a pool of free slots has no active particle |
| ParticlePool.ClassNameInjective | src/magic_dust.js:139 | the class list identifies the variant |
| ParticlePool.TextVariant | src/magic_dust.js:130-137 | the chosen variant's bucket contains the random number |
| ParticlePool.TextVariantExactBucket | src/magic_dust.js:130-137 | a variant is chosen exactly when the number lies in its bucket |
| ParticlePool.BucketsTileUnitInterval | src/magic_dust.js:130-137 | the six buckets are non-empty and tile [0, 1) in order |
| ParticlePool.AmbientVariant | src/magic_dust.js:201-202 | the index stays in range and each quarter of [0, 1) picks its own variant |
| ParticlePool.FirstFree | src/magic_dust.js:127 | the lowest free slot, or none exactly when every slot is shown |
| ParticlePool.Acquire | src/magic_dust.js:127-148 | the lowest free slot is shown with the class and position; with no free slot the pool is unchanged; active slots are untouched and the count grows by one |
| ParticlePool.Release | src/magic_dust.js:150-154 | completion hides exactly that slot and lowers the count if it was shown |
| ParticlePool.CreateTextParticle | src/magic_dust.js:126-148 | an acquired slot carries the text variant's class; dropped exactly when the pool is full |
| ParticlePool.CreateParticle | src/magic_dust.js:194-212 | missing coordinates are drawn over the viewport; the class is one of the four ambient ones |
| ParticlePool.EmitText | src/magic_dust.js:127-128 | with f free slots and m requests exactly min(f, m) succeed and active slots are untouched |
| ParticlePool.TenOfFifteenGranted | src/magic_dust.js:127-128 | 15 requests on 10 free slots: 10 granted, 5 dropped |
| TextMask.SamplingStride | src/magic_dust.js:88 | the stride is floor(fontSize / 70) but at least 2 |
| TextMask.AlphaIndexInBounds | src/magic_dust.js:92-93 | every pixel inside the raster reads a byte inside the w*h*4 buffer |
| TextMask.StepKeepsMultiple | src/magic_dust.js:90-91 | stepping by the stride stays on the grid |
| TextMask.MultiplesApart | src/magic_dust.js:90-91 | no grid line is skipped between two steps |
| TextMask.SampleCells | src/magic_dust.js:90-99 | exactly the grid cells with alpha above 128, each once, in row-major order |
| TextMask.MaskScanUnique | src/magic_dust.js:90-99 | the sampled cells are determined by the raster and the stride |
| TextMask.OrderedUnique | src/magic_dust.js:90-99 | two strictly row-major sequences with the same cells are equal |
| TextMask.Shift | src/magic_dust.js:94-96 | every point is its cell moved by the same offset |
| TextMask.CanvasDim | src/magic_dust.js:75-76 | the canvas side is the box side times 1.5 truncated to whole pixels, zero exactly when the box side is under 2/3 px |
| TextMask.CanvasCentredOnBox | src/magic_dust.js:94-95 | the offsets place the canvas's middle on the middle of the text box |
| TextMask.CreateTextParticleMap | src/magic_dust.js:57-101 | without the text element the points stay; when a canvas side is zero the image read throws and the points stay; otherwise they are replaced by the shifted scan of exactly the inked grid cells |
| TextMask.RebuildDeterministic | src/magic_dust.js:85-101 | rebuilding from the same raster and box yields the same points |
| TextBurst.Batches | src/magic_dust.js:110-123 | ceil(n / 8) batches, batch j scheduled at (k + j) * 60 ms |
| TextBurst.BatchSlices | src/magic_dust.js:111-114 | batch j holds the slice [8j, 8j + 8) of the sample |
| TextBurst.BatchesCover | src/magic_dust.js:111-123 | the batches cover the sample exactly once and in order |
| TextBurst.BatchSizes | src/magic_dust.js:110-114 | every batch has 1 to 8 points and only the last has fewer than 8 |
| TextBurst.CreateTextBurst | src/magic_dust.js:104-123 | no-op without points; otherwise the list is a permutation of the old one and the batches release its first min(120, n) points, batch k at k * 60 ms holding the slice [8k, 8k + 8) of them: at most 8 points each, exactly 8 in all but the last |
| TextBurst.BatchRequests | src/magic_dust.js:115-118 | each point is scattered by at most 12.5 on each axis |
| TextBurst.FireBatch | src/magic_dust.js:112-122 | a batch yields exactly min(free, batch size) particles |
| Decimal.NatToString | src/audio_player.js:330 | a non-empty digit string, without a leading zero unless it is a single digit |
| Decimal.ValueOfNatToString | src/audio_player.js:330 | the numeral reads back as the number |
| Decimal.PadStart | src/audio_player.js:330 | the string is kept as its suffix and padded with the fill character up to the target length |
| Decimal.LeadingZero | src/audio_player.js:330 | a padding zero does not change the value |
| CompactPlayer.FormatTime | src/audio_player.js:327-331 | the label is digits, a colon and exactly two digits |
| CompactPlayer.SecondsField | src/audio_player.js:329-330 | the seconds field is two digits worth s mod 60 |
| CompactPlayer.ParseFormatTime | src/audio_player.js:327-331 | a label reads back as the seconds it was made from, so minutes * 60 + seconds = s |
| CompactPlayer.ParseLabel | src/audio_player.js:330 | a label built from digit runs reads back as minutes * 60 + seconds |
| CompactPlayer.FormatTimeInjective | src/audio_player.js:327-331 | no two numbers of seconds share a label |
| CompactPlayer.NewPlayer | src/audio_player.js:6-22 | one track, index 0, paused at 0, looping |
| CompactPlayer.LoadTrack | src/audio_player.js:286-308 | paused, positioned at floor(total / 3), nothing else changed |
| CompactPlayer.NextTrack | src/audio_player.js:276-279 | the index moves one forward, wrapping to 0, and the track is reloaded paused at a third of the total time |
| CompactPlayer.PreviousTrack | src/audio_player.js:281-284 | the index moves one back, wrapping to the last, and the track is reloaded paused at a third of the total time |
| CompactPlayer.PreviousUndoesNext | src/audio_player.js:276-284 | previous after next, and next after previous, return to the same track |
| CompactPlayer.ModStep | src/audio_player.js:277 | one step round the cycle from c mod n is (c + 1) mod n |
| CompactPlayer.NextTimes | src/audio_player.js:276-279 | k calls of next land k places further round the list |
| CompactPlayer.ToggleLoop | src/audio_player.js:354-357 | the flag flips and the new value is returned |
| CompactPlayer.ToggleLoopTwice | src/audio_player.js:354-357 | two toggles restore the player |
| CompactPlayer.TogglePlayPause | src/audio_player.js:230-231 | the play flag flips and nothing else changes |
| CompactPlayer.TogglePlayPauseTwice | src/audio_player.js:231 | two toggles restore the player |
| CompactPlayer.PlaybackRejected | src/audio_player.js:234-238 | a refused play leaves the player paused |
| CompactPlayer.Ended | src/audio_player.js:57-66 | looping restarts the same track at 0; otherwise the player advances to the next track |
| CompactPlayer.LoadedMetadata | src/audio_player.js:41-48 | total is the whole seconds of the duration, the current track records it, position is floor(total / 3) |
| CompactPlayer.WaveBox | src/audio_player.js:128-131 | the drawing area is at least 60 by 20 and at least the container |
| CompactPlayer.WaveGrid | src/audio_player.js:148-152 | width / 2 + 1 vertices at x = 0, 2, 4, ... within the width, strictly increasing |
| CompactPlayer.Progress | src/audio_player.js:179 | progress times total equals current when total > 0, 0 otherwise, within [0, 1] for a position within the track |
| CompactPlayer.ClosestPoint | src/audio_player.js:203-212 | a vertex at minimal distance from the target, the earliest among ties |
| CompactPlayer.FirstNearestUnique | src/audio_player.js:203-212 | the earliest nearest vertex is unique |
| CompactPlayer.NearestOnGridWithinOne | src/audio_player.js:198-212 | on the grid the playhead lands within one unit of its target |
| CompactPlayer.GridCoversWidth | src/audio_player.js:128-152 | the vertices of the widened grid reach to within one unit of the container's width |
| CompactPlayer.TargetWithinGrid | src/audio_player.js:198-200 | the playhead target, progress times the raw width, lies between 0 and one unit past the last vertex |
| CompactPlayer.PlayheadNearTarget | src/audio_player.js:198-212 | with the raw container width as target scale, the playhead is still within one unit |
| Preloader.Init | src/preloader.js:17-28 | not loaded, no timelines, progress 0 |
| Preloader.OnPageLoaded | src/preloader.js:117-144 | loaded, both timelines killed, one more run counted |
| Preloader.Advance | src/preloader.js:107-108 | a tick adds at least 0.005 and under 0.025, capped at 0.95 |
| Preloader.Step | src/preloader.js:81-212 | progress never falls or passes 0.95; nothing moves after load; starting the cycling after load is a no-op |
| Preloader.Run | src/preloader.js:104-111 | progress along any trace stays within [0, 0.95] and only grows |
| Preloader.StepKeepsInvariant | src/preloader.js:194-212 | one callback keeps the latch's bookkeeping exact |
| Preloader.InvariantHolds | src/preloader.js:194-212 | after any trace the flags and the run count match the events seen |
| Preloader.PageLoadedExactlyOnce | src/preloader.js:194-212 | onPageLoaded runs once exactly when load and timer have both fired, or the timer on a completed page, and never twice |
| Preloader.LoadedStopsCycling | src/preloader.js:117-140 | once loaded, neither timeline runs |
| Preloader.ProgressMonotone | src/preloader.js:104-111 | every prefix of a trace shows no more progress than the whole |
| Preloader.FrozenAfterLoad | src/preloader.js:105 | after load the simulated progress never changes |
| Preloader.RunKeepsLoaded | src/preloader.js:117-118 | once loaded, always loaded |
| Preloader.RampProgress | src/preloader.js:125-133 | the ramp runs within [0.95, 1], from 0.95 to exactly 1 |
| Preloader.RampForward | src/preloader.js:125-128 | the ramp starts at or above any simulated progress and only rises |
| Preloader.CoordinatesAt | src/preloader.js:54-56 | progress 0 gives the start, 1 the destination, values in between stay between |
| Preloader.CoordinatesMonotone | src/preloader.js:54-56 | latitude falls and longitude rises as progress grows |
| Arith.Abs | src/preloader.js:49-50 | the magnitude is non-negative and equals the number or its negation |
| Preloader.FormatCoordinates | src/preloader.js:46-51 | 'N' exactly for latitude >= 0, 'E' exactly for longitude >= 0, magnitudes unsigned |
| Preloader.ReadFormatCoordinates | src/preloader.js:46-51 | the label reads back as the coordinates |
| Preloader.LabelsAlongTheWay | src/preloader.js:24-56 | during the load the counter reads S and E, N only at the very start |
| Preloader.FinalLabel | src/preloader.js:130-133 | the final update reads 7.946 S, 14.375 E |

## Left out

- `src/animation.js` is not part of this model. It is hero-section
  animation with no logic beyond trivial index arithmetic.
- GSAP is not modelled: tween durations, easing, stagger and position
  parameters. So particle lifetimes, the exit animation and the order in
  which timers actually fire are not modelled. The preloader's callbacks
  may arrive in any order.
- Canvas rendering, the pixels `getImageData` returns,
  `getBoundingClientRect` and computed styles are not modelled. The raster
  and the text box are inputs; the raster's size is derived from the box.
  The box's sides are taken to be non-negative, as a bounding rectangle's
  are. Canvas sides of 2^31 px or more (the fallback to the default size
  and the 32-bit wrap of the `unsigned long` attribute) are not modelled.
- When `createTextParticleMap` throws during start-up, the exception
  leaves the `fonts.ready` callback, so neither `startParticleAnimation`
  nor the first text burst is scheduled. The model records the throw
  (`threw`) but does not model this start-up wiring.
- The CSS fallback branches of `createTextParticle` and `createParticle`
  are not modelled, because `this.gsap !== "undefined"` compares against a
  string and is always true.
- The `setInterval` emitters of `startParticleAnimation`, the click and
  touch bursts, and the resize listeners are not modelled. They only call
  the modelled operations at fixed rates; `EmitText` and `FireBatch` cover
  a run of requests.
- The mobile user-agent test is an input flag.
- The `fetch` request and its URL-encoded body are not modelled; the
  reply, or the exception, is an input. So are `setLoadingState`,
  `createSuccessModal` and `hideSuccess`.
- `handleSubmit` reads `Date.now()` twice. The model uses one clock
  reading for both, since both are taken before any await.
- Three element guards are modelled: the particle field (`hasField` in
  `ParticlePool.CreatePool`), the text element (`text` in
  `TextMask.CreateTextParticleMap`) and the preloader's counter
  (`hasCounter` in `Preloader.Init`). The other early returns on a missing
  element are not modelled, and those elements are taken to be present:
  the success box in `showSuccess`, the error box in `showError`,
  `showMagicMessage` and `hideError`, the input in `setInputState` and
  `clearInputState`, the button text in `setLoadingState`, the wave
  container in `initializeWaves`, and the logo and overlay of the
  preloader.
- `successShown` is an input flag, because nothing in the handler adds
  "show" to the success message.
- Audio decoding and playback, `timeupdate`, seeking, and the audio
  `error` handler are not modelled. Neither is `calculateWaveY`: the
  wave's heights come from a function parameter.
- `loadTrack` applies its 300 ms deferred update at once. The title and
  artist text and the wave redraw are not modelled.
- CompactPlayer.FormatTime: defined for whole non-negative seconds only.
  `formatTime` has no caller in `src/audio_player.js`. A fractional or
  negative argument, which `formatTime` would print as "0:5.5" or "-1:-5",
  is outside the model.
- CompactPlayer.FormatTime, CompactPlayer.ParseFormatTime,
  CompactPlayer.FormatTimeInjective and Decimal.NatToString: the
  minutes are written as plain digits for every count. JavaScript writes
  numbers from 10^21 in exponent form, so `formatTime` of 6e22 seconds
  prints "1e+21:00", and above 2^53 a double cannot hold every whole
  number of seconds. Neither the exponent form from 10^21 minutes nor
  double precision above 2^53 is modelled.
- Preloader.FormatCoordinates: `toFixed(3)` digit rendering is not
  modelled; the label keeps the unsigned magnitudes as reals.
- The colour palette of the cycling timeline is not modelled, only
  whether that timeline is alive.
- The preloader's trace lemmas assume each one-shot callback fires at
  most once. The load event, the timer and the fade-in each fire once.
- JavaScript numbers are IEEE doubles; the model computes with exact reals
  and unbounded integers. The contracts named in the next lines hold
  exactly only in the model, and in doubles only up to rounding.
- CompactPlayer.Progress: `progress * total == current` is exact only over
  reals; `(1/49)*49` is `0.9999999999999999` in doubles.
- Preloader.Advance: the sums of increments are exact only over reals.
  The same holds for Preloader.Step and Preloader.Run.
- Preloader.RampProgress: the end values and bounds are exact only over
  reals, and so are those of Preloader.CoordinatesAt.
- TextBurst.BatchRequests: the ±12.5 spread bounds are exact only over
  reals.
- TextMask.CanvasCentredOnBox: the offsets are exact only over reals, and
  so is the scaled box side in TextMask.CanvasDim.
