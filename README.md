# chainsynth client core, modelled in Dafny

chainsynth is a browser client that follows the finalized blocks of a
Polkadot chain. For each block it plays a chord whose root note is picked
from the block hash. It draws a ring of dots for the block's extrinsics and
a second ring for its events, and fills a progress indicator over the
6-second block time. This project models the parts of the client that are
pure computation or state bookkeeping, and proves properties of them:

- `JsNumber` (`js_number.dfy`): the JavaScript semantics the client relies
  on, written over unbounded integers. This is ToInt32 (behind `|0` and
  `<<`), the truncating `%`, and strings as sequences of UTF-16 code units.
- `StringHash` (`string_hash.dfy`): the `String.prototype.hash` extension.
  It is modelled as its own loop (a method), proved equal to a reference
  definition: the polynomial sum of `s[i] * 31^(n-1-i)` reduced by ToInt32.
  The step law, the 32-bit range and the empty-string case are proved.
- `RootNote` (`root_note.dfy`): the root-note choice `hash % rootNotes.length`
  against the five-note table. It is modelled as written, with its
  negative-index defect, and also in corrected form.
- `Progress` (`progress.dfy`): the percentage shown by the block-progress
  indicator, with its bounds, saturation and monotonicity.
- `Synth` (`chain_synth.dfy`): the `ChainSynth` object. Its fields
  `extrinsicCircles`, `eventCircles`, `extrinsicCount`, `eventCount` and
  `lastBlockTime` are class fields that the methods update in place. The two.js
  scene is a `Scene` object holding the set of circle handles it draws. Each
  method is proved to move the state as a specification function on a
  `Snapshot` value says. Lemmas on those functions state what a redraw
  removes, adds and keeps.
- `Util` (`util.ts` → `util.dfy`): `truncate`, with JavaScript `substring`
  clamping.

The hash loop adds `(hash << 5) - hash + chr` in float64 before `|0`. Every
intermediate value is below 2^53 in magnitude, so that arithmetic is exact,
and the model uses unbounded integers for it.

In three places the code does not do what the client is evidently meant to
do, and the model follows the code:

- The root-note index is meant to be `abs(hash) % 5`, always an entry of
  the table. The code takes no absolute value. See "## Findings".
- Each ring redraw is meant to remove all of that ring's earlier circles.
  In the code, a zero count returns before removing anything. Also,
  `drawEvents` lists its dots in `extrinsicCircles`, so they are removed by
  the next `drawExtrinsics` instead of the next `drawEvents`.
  `Synth.StaleRingsExample` shows a sequence of blocks after which 13
  circles stay drawn where a clean redraw would leave 3.
- A block whose processing fails is meant to be skipped with no state
  change. In the code, a failure after the block fetch leaves the new
  extrinsic count and arrival time written, the old event count in place
  and no redraw. `Synth.BlockDetailsOn` models each way a run can end.

## Model

| member | source | states |
|---|---|---|
| `JsNumber.ToInt32` | src/client/client.ts:24 | the result is a signed 32-bit integer congruent to the input modulo 2^32 |
| `JsNumber.ToInt32Unique` | src/client/client.ts:24 | any signed 32-bit value congruent to x modulo 2^32 is ToInt32(x), so the conversion is determined by the residue |
| `JsNumber.ToInt32AddMultiple` | src/client/client.ts:24 | adding a multiple of 2^32 does not change ToInt32 |
| `JsNumber.ShiftLeft` | src/client/client.ts:23 | `x << n` is a signed 32-bit value congruent to x·2^(n mod 32) modulo 2^32 |
| `JsNumber.ShiftLeft5` | src/client/client.ts:23 | `x << 5` can stand for 32·x under a later ToInt32, whatever x is |
| `JsNumber.BitOrZero` | src/client/client.ts:24 | `x \| 0` is a signed 32-bit value and leaves such values unchanged |
| `JsNumber.JsRem` | src/client/client.ts:119 | JavaScript `%`: a = trunc(a/b)·b + r, abs(r) < abs(b), and r has the sign of the dividend |
| `StringHash.PolyHash` | src/client/client.ts:17-27 | the reference hash is a signed 32-bit integer, and the empty string hashes to 0 |
| `StringHash.PolySumSnoc` | src/client/client.ts:21-25 | appending a code unit c turns the polynomial p into 31·p + c (Horner's rule) |
| `StringHash.HashStep` | src/client/client.ts:21-25 | step law: hash(s + [c]) = ToInt32(31·hash(s) + c) |
| `StringHash.SourceStep` | src/client/client.ts:23-24 | one loop iteration `((h << 5) - h) + chr`, then `\|0`, equals ToInt32(31·h + chr) |
| `StringHash.Hash` | src/client/client.ts:17-27 | the loop, including its early return on the empty string, computes the reference hash, a signed 32-bit integer |
| `RootNote.RootIndex` | src/client/client.ts:119 | the index lies in (-5, 5); it is negative only for a negative hash, and non-negative exactly when the hash is non-negative or divisible by 5 |
| `RootNote.RootNoteAsWritten` | src/client/client.ts:119-120 | a note is found exactly when the index is non-negative, and it is the table entry at that index |
| `RootNote.NegativeIndexExample` | src/client/client.ts:119-120 | the hash string "0xabcdef" gives index -3 and no note |
| `RootNote.SampleHashValue` | src/client/client.ts:17-27 | "0xabcdef" hashes to -247609173 |
| `RootNote.RootIndexCorrected` | src/client/client.ts:119 | with the absolute value, the index is always within the table, and it agrees with the code for non-negative hashes |
| `RootNote.RootNoteCorrected` | src/client/client.ts:119-120 | the corrected note is always a table entry, and it is the note the code finds whenever the code finds one |
| `Progress.Elapsed` | src/client/client.ts:136 | elapsed time is at most both the block time and now − lastBlockTime, and equals one of them |
| `Progress.ProgressPercent` | src/client/client.ts:136-137 | percent ≤ 100; percent = 100 exactly when 6000 ms have passed; percent ≥ 0 exactly when now ≥ lastBlockTime; below saturation, percent = elapsed/60 |
| `Progress.ProgressMonotone` | src/client/client.ts:136-137 | the percentage is non-decreasing in `now` |
| `Progress.ProgressResets` | src/client/client.ts:117 | a later `lastBlockTime` never shows more progress at the same instant |
| `Synth.Scene.MakeCircle` | src/client/client.ts:183 | `makeCircle` returns the next unissued handle and adds it to the scene |
| `Synth.Scene.Remove` | src/client/client.ts:173 | `remove` takes exactly that handle out of the scene |
| `Synth.DrawExtrinsicsZero` | src/client/client.ts:167-169 | with a zero extrinsic count, the scene and both arrays are unchanged |
| `Synth.DrawEventsZero` | src/client/client.ts:192-194 | with a zero event count, the scene and both arrays are unchanged |
| `Synth.DrawExtrinsicsScene` | src/client/client.ts:172-187 | with K > 0, every handle listed in `extrinsicCircles` is taken out of the scene; exactly K + 1 handles never drawn or listed before are drawn; every other drawn circle stays |
| `Synth.DrawExtrinsicsArrays` | src/client/client.ts:172-187 | with K > 0, `extrinsicCircles` is not cleared: it keeps its old entries and gains exactly the K + 1 circles just drawn; `eventCircles` is untouched |
| `Synth.DrawEventsScene` | src/client/client.ts:197-211 | with K > 0, every handle listed in `eventCircles` is taken out of the scene; exactly K + 1 handles never drawn or listed before are drawn; every other drawn circle stays |
| `Synth.DrawEventsArrays` | src/client/client.ts:197-211 | with K > 0, one new boundary handle is appended to `eventCircles` and the K new dot handles to `extrinsicCircles`; neither array loses an entry |
| `Synth.DrawExtrinsicsInv` | src/client/client.ts:166-189 | `drawExtrinsics` keeps the bookkeeping invariant: every drawn handle is listed, and every handle was issued |
| `Synth.DrawEventsInv` | src/client/client.ts:191-213 | `drawEvents` keeps the same invariant |
| `Synth.ProcessBlockInv` | src/client/client.ts:110-133 | the invariant holds in the initial state and after each processed block |
| `Synth.RedrawExact` | src/client/client.ts:131-132 | when both counts are positive, the scene after the two redraws holds exactly the circles they just drew |
| `Synth.RedrawCount` | src/client/client.ts:86-89 | when both counts are positive, a redraw leaves exactly E + V + 2 circles, however many redraws came before |
| `Synth.ProcessBlockGrowth` | src/client/client.ts:110-133 | per block, `extrinsicCircles` grows by (E > 0 ? E + 1 : 0) + V and `eventCircles` by (V > 0 ? 1 : 0); neither loses an entry; the counts and time are recorded |
| `Synth.BlockDetailsInv` | src/client/client.ts:110-133 | the bookkeeping invariant holds after every run of `processBlockDetails`, whichever way it ends |
| `Synth.StoppedBlockKeepsScene` | src/client/client.ts:113-128 | a run that stops after the block fetch writes the extrinsic count and the time, keeps the old event count, and leaves the scene and both arrays as they were |
| `Synth.StoppedBlockThenResize` | src/client/client.ts:86-89 | after such a run, the next resize draws E + V′ + 2 circles: the new extrinsic count E beside the previous block's event count V′ |
| `Synth.StaleRingsExample` | src/client/client.ts:166-213 | blocks (3 extrinsics, 6 events) then (0, 2) leave the first block's extrinsic ring and event dots drawn: 13 circles |
| `Synth.ChainSynth.constructor` | src/client/client.ts:47-51 | all fields start at their initialisers and the scene is empty |
| `Synth.ChainSynth.DrawExtrinsicOuterCircle` | src/client/client.ts:144-153 | draws and returns one new circle |
| `Synth.ChainSynth.DrawEventOuterCircle` | src/client/client.ts:155-164 | draws and returns one new circle |
| `Synth.ChainSynth.RemoveAll` | src/client/client.ts:172-174 | the `forEach` removal takes every listed handle out of the scene |
| `Synth.ChainSynth.DrawDots` | src/client/client.ts:180-188 | the dot loop draws `count` new circles, in handle order, and pushes each onto `extrinsicCircles`; nothing else in the scene changes |
| `Synth.ChainSynth.DrawExtrinsics` | src/client/client.ts:166-189 | the new state is `DrawExtrinsicsOn` of the old one |
| `Synth.ChainSynth.DrawEvents` | src/client/client.ts:191-213 | the new state is `DrawEventsOn` of the old one |
| `Synth.ChainSynth.OnWindowResize` | src/client/client.ts:86-89 | the new state is both redraws applied to the old one |
| `Synth.ChainSynth.ProcessBlockDetails` | src/client/client.ts:110-133 | the new state is `BlockDetailsOn` of the old one: unchanged if the block fetch rejects; only the extrinsic count and time written if the run stops after line 117; otherwise the counts and time recorded and both rings redrawn |
| `Synth.ChainSynth.UpdateProgress` | src/client/client.ts:135-138 | one tick's percentage is `ProgressPercent` of the clock and `lastBlockTime`: at most 100, and exactly 100 once the block time has passed |
| `Util.Clamp` | src/client/util.ts:4 | the index is clamped into [0, len], and in-range values are kept |
| `Util.Substring` | src/client/util.ts:4 | `substring` returns the slice between the clamped indices, taken in increasing order |
| `Util.SubstringFrom` | src/client/util.ts:4 | `substring(start)` returns the suffix from the clamped start |
| `Util.Truncate` | src/client/util.ts:1-6 | a string no longer than strLen is returned unchanged; a longer one is exactly its first min(front, \|s\|) units, then the separator, then its units from max(0, \|s\| − back) on, with the matching length |
| `Util.TruncateDefault` | src/client/util.ts:1-4 | with the defaults (10, "...", 10, 8), a string of at most 10 units is unchanged and a longer one becomes 21 units: its first 10, "...", its last 8 |
| `Util.TruncateShort` | src/client/util.ts:2 | a string no longer than strLen is returned unchanged |
| `Util.TruncateLong` | src/client/util.ts:3-5 | a longer string becomes s[..min(front, \|s\|)] + separator + s[max(0, \|s\| − back)..] (negative counts keep nothing), with the matching length |
| `Util.TruncateDefaultIdempotent` | src/client/util.ts:1-4 | with the defaults, truncating twice equals truncating once |

## Findings

| source | as written | input that shows it | evidently intended | confidence | as-written member | corrected member |
|---|---|---|---|---|---|---|
| src/client/client.ts:119-120 | `hash() % this.rootNotes.length` without an absolute value, so the truncating `%` yields a negative index for most negative hashes | block hash string "0xabcdef": hash −247609173, index −3, `rootNotes[-3]` is `undefined` | index `abs(hash) % 5`, always an entry of the table | high (not executed) | `RootNote.NegativeIndexExample` | `RootNote.RootNoteCorrected` |

## Left out

- The Polkadot RPC (`getFinalizedHead`, `getHeader`, `getBlock`, `subscribeFinalizedHeads`, `at(...).query.system.events`). This is network I/O; the fetched extrinsic and event lengths and the clock reading are parameters of `ProcessBlockDetails`.
- `Synth.ChainSynth.ProcessBlockDetails`: each run is one step from its start to the way it ends. Between its awaits, another block's callback, a resize or a progress tick could run. Interleavings, and out-of-order completion of fetches for different blocks, are asynchronous ordering and are not modelled. Which step stopped a run that got past the block fetch (a throw in the audio calls or a rejected events fetch) is not told apart, since both leave the same state.
- The Tone.js calls (`releaseAll`, `triggerAttack`, `triggerRelease`) are a foreign audio engine. The root note they receive is modelled by `RootNote`, but no transition feeds it to a synth.
- two.js geometry (positions from `Math.cos`/`Math.sin`, the `Math.random` rotation, radii, colours, line widths, `update`) is floating point, randomness and rendering. A circle is only a handle that is created or removed; handles are numbered in the order they are issued.
- `Progress.ProgressPercent`: computed as an exact rational. The float64 rounding of `(elapsed * 100) / blockTimeMs`, and its formatting into the CSS `conic-gradient` string, are not modelled.
- The `setTimeout` self-rescheduling of `updateProgress` is timer plumbing; `UpdateProgress` models one tick.
- DOM wiring (`getElementById`, `innerHTML`, styles, listeners, `DOMContentLoaded`, `init`, `start`) and the block-number label (`Intl.NumberFormat` plus `replace`) are library and page glue. The same goes for the construction of the two.js canvas, the synth and the API client in the constructor.
- `Util.Substring`: takes integer indices. The fractional, NaN or infinite arguments that JavaScript would convert first are not modelled.
- tutorial/01-project-template/src/client/webpack.common.js is build configuration with no logic.
