# rusty_microphone: the page's WebAssembly boundary and the pitch estimators

rusty_microphone is a browser tuner. An analyser hands the page one frame of
microphone samples per animation frame. The page copies the frame into the
WebAssembly module's linear memory. The module, written in Rust, estimates the
fundamental frequency and names it as a note with a cents offset ("A4 +0").
The page reads that name back out of linear memory and draws it. It also draws
a flat/sharp indicator and shows a frame rate every hundred frames.

This project models two parts of that system:

- **`web/main.js`**, the page side.
  - The marshallers copy a float array into a block that malloc returned. They
    either call an export and free the block, or let the export rewrite the
    block and read it back.
  - The frame path allocates one block on the first frame and overwrites it on
    every later frame.
  - `copyCStr` reads a zero-terminated string out of linear memory.
  - `update` runs one frame.
  - `updateFramerate` and `updatePitchIndicators` are closures of the view.
- **`src/transforms.rs`**, the estimators.
  - The fft bucket layout and `ave_freq`.
  - The threshold-and-fold estimator `find_fundamental_frequency`.
  - The autocorrelation estimator `find_fundamental_frequency_correlation`, up
    to its peak index.
  - `hz_to_pitch`, from the rounded MIDI number on.

The files are:

| file | what it holds |
|---|---|
| `memory.dfy` | bytes; a Float32Array element as its 32-bit pattern and its little-endian bytes; `Write` (what `TypedArray.prototype.set` does to memory); the C-string scan |
| `indicators.dfy` | the frame-rate counter; the flat/sharp indicator mapping; `class View`, which holds the state that `initView`'s closures capture |
| `boundary.dfy` | `class Page`, which holds the module's linear memory, the buffer `findFundamentalFrequencyNoFree` reuses and a ghost log of the calls into the module; the marshallers, `copyCStr`, `hzToPitch`, `correlation` and `update` as methods on it |
| `transforms.dfy` | frequency buckets; `find_fundamental_frequency` as functions; `find_fundamental_frequency_correlation` as a method with its loops, against a specification function |
| `pitch.dfy` | note name, octave, cents and label of `hz_to_pitch`; a parser for labels; the cents finding below |
| `wrappers.dfy` | `Option` |

The module's exports are not modelled. Each export that the page calls is a
function value in an `Exports` record, and each can throw: a Rust panic traps
the instance and reaches the page as an exception, so every export gives a
`Result`.

- `find_fundamental_frequency` sees linear memory, the block's pointer, the
  length and the sample rate.
- `correlation` sees the bytes of the block, the length and the sample rate,
  and gives the block's new bytes.
- `hz_to_pitch` says where it stored which bytes.
- `hz_to_cents_error` gives a number.

Malloc's answer is a method parameter. The methods' `requires` clauses ask for
these things:

- The block lies inside memory.
- The exports are well behaved (`WellBehaved`): `hz_to_pitch` stores its string
  inside memory, and `correlation` gives back as many bytes as it was given.
- A callback of the mutate-in-place marshaller keeps the block's size
  (`KeepsLength`).
- The page's remembered block is consistent (`Page.Valid`), and the view's
  counter is in 0..99 (`View.Valid`).
- A Float32Array argument is a well-formed view (`Float32Array.Valid`): its
  byte offset is a multiple of 4, and its elements lie inside its buffer. An array argument of either kind is
  well formed (`JsArray.Valid`): a Float32Array must be.

## Model

| member | source | states |
|---|---|---|
| Memory.DecodeEncodeF32 | web/main.js:58-59 | the four little-endian bytes of a Float32Array element decode back to the element |
| Memory.EncodeDecodeF32 | web/main.js:93-94 | any four bytes are the encoding of the element they decode to |
| Memory.EncodeF32 | web/main.js:58-59 | the four bytes of one Float32Array element, least significant first; its partner is `DecodeF32`, related to it by `DecodeEncodeF32` and `EncodeDecodeF32` |
| Memory.DecodeF32 | web/main.js:93-94 | the element a Float32Array reads from four little-endian bytes, a 32-bit pattern |
| Memory.Encode | web/main.js:59 | the bytes of a Float32Array's buffer, four per element, in order; its partner is `Decode`, related to it by `DecodeEncode` and `EncodeDecode` |
| Memory.Decode | web/main.js:93-94 | the elements a Float32Array over whole-element bytes reads, one per four bytes |
| Memory.DecodeEncode | web/main.js:93-94 | a Float32Array viewing the bytes of an array of floats holds that array |
| Memory.EncodeDecode | web/main.js:93-94 | a buffer of whole elements is the encoding of what a Float32Array over it reads |
| Memory.Write | web/main.js:58-59 | storing bytes through a view keeps memory's size, makes the view's window equal the source, and leaves every other byte unchanged |
| Memory.WriteOneMore | web/main.js:59 | storing one more source byte extends the stored prefix by exactly that byte |
| Memory.WriteTwice | web/main.js:89-91 | a second store over the same window, as the correlation's rewrite of the copied block, replaces the first |
| Memory.Tail | web/main.js:123 | the Uint8Array from `byteLength - n` on holds the last n bytes of the buffer, in order |
| Memory.ScanCStr | web/main.js:134-143 | the scan from a pointer gives the bytes before the first zero byte, none of them zero, with a zero right after them; it gives nothing exactly when no zero byte lies between the pointer and the end of memory |
| Memory.ScanCStrStopsAtFirstZero | web/main.js:136-142 | whatever non-zero bytes lie between the pointer and a zero byte are what the scan collects |
| Memory.CStrRoundTrip | web/main.js:130-150 | a zero-free string stored with its terminator is read back unchanged by the scan from the same pointer |
| Indicators.FrameRate | web/main.js:208-210 | the rate is Infinity exactly when no time passed; otherwise rate times elapsed time is 100000 |
| Indicators.TickAt | web/main.js:204-213 | a call reports exactly when the counter reaches 100, then resets it to 0 and remembers the timestamp; otherwise it only increments the counter; the counter stays in 0..99 |
| Indicators.Run | web/main.js:204-213 | the closure state after one call per timestamp, and one report slot per call; its properties are the Run lemmas below |
| Indicators.RunReportsEveryHundredth | web/main.js:204-213 | over a run of calls, call i reports exactly when the count since the last report reaches a multiple of 100, and afterwards the counter is the number of calls modulo 100 |
| Indicators.QuietRunKeepsLastTimestamp | web/main.js:205-207 | a run that does not reach 100 reports nothing and keeps the last report's timestamp |
| Indicators.HundredCalls | web/main.js:204-213 | from a reset counter, exactly the hundredth of a hundred calls reports, with the time since the previous report |
| Indicators.RunStep | web/main.js:204-213 | the call that brings the counter to 100 appends the one report of the run and resets the state to that timestamp |
| Indicators.SteadyFrames | web/main.js:208-211 | a hundred frames delta ms apart report 1000/delta frames per second, so 100 for 10 ms frames |
| Indicators.PitchIndicator | web/main.js:218-235 | the bar is hidden exactly for a NaN error; a sharp error lights only the sharp colour and any other error only the flat one; both intensities are non-negative |
| Indicators.IndicatorMirror | web/main.js:224-234 | an error and its negation swap the two intensities and place the bar symmetrically about 50% |
| Indicators.IndicatorMonotone | web/main.js:224-234 | as the error grows, the sharp intensity and the bar position do not decrease and the flat intensity does not increase |
| Indicators.IndicatorWithinHalfSemitone | web/main.js:224-234 | for errors within ±50 the bar stays within 0..100% and the intensities within 0..256; at ±50 an intensity is 256, one past a colour byte, because nothing is clamped |
| Indicators.IndicatorExamples | web/main.js:224-234 | errors 0, +25 and -25 give the centred bar, sharp 128 and flat 128 |
| Indicators.AfterFramerate | web/main.js:204-213 | the view after one frame-rate call: the counter ticks, and the label changes only on a report |
| Indicators.AfterPitchIndicators | web/main.js:215-237 | the view after one indicator call: the label, the bar, and for a number both colours |
| Indicators.AfterDraw | web/main.js:198-202 | indicators, then frame rate; its properties are stated by `DrawHidesOnlyOnNaN` |
| Indicators.DrawHidesOnlyOnNaN | web/main.js:198-237 | a drawn frame shows its pitch; it hides the bar exactly when the error is NaN and then keeps the last colours; otherwise it moves the bar to error+50 and sets both colours |
| Indicators.View.constructor | web/main.js:189-190 | the view starts with the counter and the last timestamp at 0 and nothing written |
| Indicators.View.UpdateFramerate | web/main.js:204-213 | the view's new state is one tick of the frame-rate counter, and the counter stays in 0..99 |
| Indicators.View.UpdatePitchIndicators | web/main.js:215-237 | the view's new state is the pitch label and the indicator for the error; nothing else changes |
| Indicators.View.Draw | web/main.js:198-202 | the indicators are updated first, then the frame rate |
| Boundary.NewFloat32Array | web/main.js:54 | `new Float32Array(values)` is a view at offset 0 over a buffer of exactly the values' bytes, and reads back the values |
| Boundary.AsFloat32Array | web/main.js:54 | the marshaller's array has the argument's length and elements, whether it was a Float32Array or a plain array |
| Boundary.SpansBuffer | web/main.js:58-59 | `set` of the whole buffer into a view sized for the elements fits exactly when the buffer is no longer than the elements' bytes; its properties are stated by `SpanningBufferIsElements` and `Page.Set` |
| Boundary.SpanningBufferIsElements | web/main.js:59 | when the view sized for the elements takes the whole buffer, the buffer is exactly the elements' bytes |
| Boundary.TailIsFrameAtEndOfBuffer | web/main.js:123 | when the frame's view ends at the end of its buffer, the buffer's last nDataBytes bytes are the frame's elements |
| Boundary.TailOfLargerBufferIsNotTheFrame | web/main.js:123 | a view over the first element of a two-element buffer copies the second element |
| Boundary.MutatedInPlaceKeepsLength | web/main.js:83-99 | reading the block back gives as many floats as were copied in |
| Boundary.MutatedInPlaceReadsBack | web/main.js:83-99 | a callback that leaves the block as it found it gives back the array's own elements from an aligned block, and a RangeError from an unaligned one |
| Boundary.MutatedInPlace | web/main.js:91-98 | the end of the mutate-in-place marshaller: a throwing callback leaves memory and the block allocated; otherwise the block holds what the callback wrote, and the read-back gives those floats and frees the block, or a RangeError for an unaligned block, with no free |
| Boundary.PitchShown | web/main.js:157-160 | the end of a frame from hz_to_pitch on, through copyCStr (lines 130-150), hz_to_cents_error and draw (lines 171-174), with each way the frame can throw |
| Boundary.Drawn | web/main.js:172-174 | the end of a frame once its pitch is named: the cents error of the same fundamental, then draw of both, or the exception with the view unchanged |
| Boundary.Page.constructor | web/main.js:107-109 | linear memory holds the initial bytes; no buffer is remembered and no call has been made |
| Boundary.Page.Set | web/main.js:58-59 | `set` succeeds exactly when the source fits the view; memory then holds the source at the view's offset and is otherwise unchanged; on a RangeError memory is untouched |
| Boundary.Page.JsArrayToF32ArrayPtr | web/main.js:53-66 | an array whose buffer does not fit the view sized for its elements throws a RangeError after malloc, and nothing is freed; otherwise the block holds the array's elements, the callback sees that memory with the pointer and the length, and the block is freed only when the callback returns |
| Boundary.Page.JsArrayToF32ArrayPtrMutateInPlace | web/main.js:83-99 | the elements are copied into the block, then comes `MutatedInPlace`: a throwing callback leaves the block allocated; otherwise the block holds what the callback wrote, and reading it gives those floats (then free) or a RangeError for an unaligned pointer (no free) |
| Boundary.Page.MutateBlock | web/main.js:91-96 | the callback, read back and free, as stated by `MutatedInPlace` |
| Boundary.Page.CopyToHeap | web/main.js:84-89 | malloc of 4 bytes per element, and the block then holds the elements' bytes |
| Boundary.Page.ReadFloats | web/main.js:93-94 | the read succeeds exactly for a pointer that is a multiple of 4, fails otherwise with a RangeError, and then gives length floats whose bytes are the block |
| Boundary.Page.FindFundamentalFrequency | web/main.js:101-105 | the export sees the array copied into the block and its result, answer or exception, is returned; malloc and the call are made in that order, and free follows only when the export returns; an array over a larger buffer raises a RangeError after malloc, with memory unchanged and nothing freed |
| Boundary.Page.FindFundamentalFrequencyNoFree | web/main.js:107-125 | only the first call mallocs, sized by that first frame, and the block is remembered from then on; every call stores the last nDataBytes bytes of the frame's buffer in the block and calls the export with the frame's length; a buffer shorter than the block raises a RangeError; the page state stays valid |
| Boundary.Page.CopyCStr | web/main.js:130-150 | without a zero byte before the end of memory it throws and nothing is freed; otherwise it returns the decoding of the bytes before the first zero and frees the string |
| Boundary.Page.HzToPitch | web/main.js:157-160 | an export that throws leaves memory unchanged and the exception propagates; otherwise memory holds the string the export stored, and the result is `CopyCStr` of the pointer the export returned |
| Boundary.Page.HzToCentsError | web/main.js:153-155 | the result is the export's, answer or exception, and the call is logged |
| Boundary.Page.Correlation | web/main.js:162-166 | malloc, then the export on the array's bytes; when it throws, the block keeps the copied array, the exception propagates, and nothing is freed; otherwise the block holds the correlation's bytes, the result is those floats read back, and the block is freed, or a RangeError for an unaligned block, with no free |
| Boundary.Page.ShowPitch | web/main.js:171-174 | as `PitchShown` states: the stored name is read back and freed, the cents error of the same fundamental is computed, and the view draws both; when an export throws or the name has no terminator, the frame throws there and the view is unchanged |
| Boundary.Page.DrawPitch | web/main.js:172-174 | as `Drawn` states: hzToCentsError of the fundamental is logged and, unless it throws, the view draws the pitch and that error; a throw leaves the view unchanged |
| Boundary.Page.Update | web/main.js:168-175 | one frame: the frame is stored in the reused block and the fundamental is computed from it; pitch name and cents error are computed from that fundamental in that order and drawn; a RangeError leaves memory and the view as they were; an export that throws abandons the frame with the view unchanged |
| Transforms.FrequencyBucket.AveFreq | src/transforms.rs:11-13 | the centre is equally far from both edges and lies between them |
| Transforms.Resolution | src/transforms.rs:24 | the bucket width: that many buckets of it span exactly half the sample rate |
| Transforms.Fft | src/transforms.rs:26-33 | one bucket per intensity, in order, carrying that intensity |
| Transforms.FftBucketsTile | src/transforms.rs:24-33 | the buckets start at 0 Hz, end at half the sample rate, touch without gaps and all have the same width |
| Transforms.FftCentres | src/transforms.rs:24-33 | bucket k is centred at (k + 1/2) times the resolution |
| Transforms.Above | src/transforms.rs:39 | the filter that keeps, in order, the buckets above a threshold; it never lengthens the list |
| Transforms.SumIntensity | src/transforms.rs:40 | the sum of the intensities; its properties are stated by `SumAboveAtMost`, `SumAboveNonNegative` and `FlatSum` |
| Transforms.AverageIntensity | src/transforms.rs:40 | the sum of the positive intensities over the number of all buckets |
| Transforms.Significant | src/transforms.rs:39-41 | the positive buckets above that average, in order |
| Transforms.FoldMax | src/transforms.rs:43-45 | the fold that replaces the held bucket only when nothing is held or the next one is strictly more intense |
| Transforms.FindFundamentalFrequency | src/transforms.rs:36-49 | the `unwrap` of the fold over the significant buckets: the centre of the bucket found, or a panic; its properties are stated by `FindFundamentalFrequencyPanics` and `FindFundamentalFrequencyReturns` against the reference `IsFirstMax` |
| Transforms.Threshold | src/transforms.rs:39-41 | what a bucket must exceed to be significant: max(0, average); its properties are stated by `ThresholdIsAverage` |
| Transforms.SumAboveNonNegative | src/transforms.rs:39-40 | intensities above a non-negative threshold sum to a non-negative number |
| Transforms.ThresholdIsAverage | src/transforms.rs:39-41 | the average of the positive intensities is never negative, so the threshold is the average itself |
| Transforms.AboveAbove | src/transforms.rs:39-41 | filtering by two thresholds is filtering by the larger one |
| Transforms.FoldMaxOfAbove | src/transforms.rs:41-46 | folding the filtered buckets is folding over all buckets and skipping those at or below the threshold |
| Transforms.SignificantFold | src/transforms.rs:39-46 | filtering for positive, then above average, then folding, is one fold that skips everything at or below max(0, average) |
| Transforms.FindFundamentalFrequencyPanics | src/transforms.rs:39-46 | the `unwrap` panics exactly when no bucket exceeds both 0 and the average |
| Transforms.FindFundamentalFrequencyReturns | src/transforms.rs:43-48 | otherwise the estimate is the centre of the first bucket of greatest significant intensity |
| Transforms.FindFundamentalFrequencyReturnsACentre | src/transforms.rs:36-49 | every estimate is the centre of such a first maximum |
| Transforms.FirstMaxUnique | src/transforms.rs:44-45 | ties go to the first bucket: the first maximum is unique |
| Transforms.FirstMaxExists | src/transforms.rs:43-46 | a bucket above the threshold means a first maximum exists |
| Transforms.SumAboveAtMost | src/transforms.rs:40 | the positive intensities sum to at most their count times the largest intensity |
| Transforms.AboveDropsOne | src/transforms.rs:39 | a bucket at or below the threshold makes the filtered list shorter |
| Transforms.MeanBelowMax | src/transforms.rs:40 | the arithmetic bound behind the average: for m > 0 and p < n, a sum s with s <= p·m gives s / n < m |
| Transforms.NeverPanicsOnMixedSpectrum | src/transforms.rs:39-46 | a spectrum with one positive bucket and one non-positive bucket always yields an estimate |
| Transforms.FlatSpectrumPanics | src/transforms.rs:39-46 | a spectrum of equal positive intensities panics: no bucket exceeds the average |
| Transforms.FlatSum | src/transforms.rs:39-40 | equal positive intensities all pass the first filter and sum to count times value |
| Transforms.EstimateIsBucketCentre | src/transforms.rs:24-48 | on fft's buckets every estimate is (k + 1/2) times the resolution for some bucket k |
| Transforms.LagSum | src/transforms.rs:54-58 | the inner loop's accumulator after m steps at one offset |
| Transforms.Correlation | src/transforms.rs:52-60 | one lag sum per offset, as many as there are samples |
| Transforms.EnergyIsNonNegative | src/transforms.rs:54-58 | a sum of squares, the lag sum at offset 0, is never negative |
| Transforms.CorrelationStartsWithEnergy | src/transforms.rs:52-60 | the correlation at offset 0 is the signal's energy and is non-negative |
| Transforms.FirstRise | src/transforms.rs:63-68 | the offset where the removal loop stops lies between its start and the length |
| Transforms.FirstRiseSpec | src/transforms.rs:63-68 | the loop stops at the first offset whose value exceeds its predecessor's, or at the end; every offset before it is a non-increasing step |
| Transforms.RemovedCount | src/transforms.rs:63-68 | one fewer than the offset where the removal loop breaks |
| Transforms.PeakRemoved | src/transforms.rs:63-68 | the vector after the removal loop, of the same length; its properties are stated by `PeakRemovedSpec` |
| Transforms.PeakRemovedSpec | src/transforms.rs:62-68 | the entries before the one just ahead of the first rise are zeroed, they form a non-increasing run, fewer than all entries are zeroed, and the others are unchanged |
| Transforms.PeakFold | src/transforms.rs:70-72 | the fold from (0, 0.0) that moves to an entry only when it is strictly larger than the one held |
| Transforms.PeakIndex | src/transforms.rs:70-74 | the index the fold ends with; its properties are stated by `PeakIndexSpec` |
| Transforms.PeakFoldSpec | src/transforms.rs:70-72 | the fold keeps its start unless some later value exceeds the one held, and then ends at the first greatest of those values |
| Transforms.PeakIndexSpec | src/transforms.rs:70-74 | the peak index is 0 when no value is positive, otherwise the first index of the greatest value |
| Transforms.PeakAfterRemoval | src/transforms.rs:62-74 | when a positive value survives the removal, the peak lies at or after the removed run and is the first greatest value |
| Transforms.FindFundamentalFrequencyCorrelation | src/transforms.rs:51-74 | the loops build the correlation, zero its leading run and return the index of the first positive maximum of the result, as `PeakIndex(PeakRemoved(Correlation(input)))`, whose properties are the lemmas above |
| Pitch.TruncDiv | src/transforms.rs:179 | Rust's integer division truncates toward zero: the remainder has the dividend's sign and is smaller than the divisor |
| Pitch.TruncRem | src/transforms.rs:184 | Rust's `%` leaves a remainder with the dividend's sign, smaller in magnitude than the divisor, that completes the truncated quotient |
| Pitch.AsUsize | src/transforms.rs:178 | `as usize` on a 32-bit target: the value modulo 2^32, below 2^32 |
| Pitch.NameIndex | src/transforms.rs:178 | the name index, after the wrap of `as usize`, is always a valid index into the twelve names |
| Pitch.Octave | src/transforms.rs:179 | `rounded_pitch / 12 - 1` with Rust's truncating division; its properties are stated by `OctaveSpec` |
| Pitch.OctaveSpec | src/transforms.rs:179-182 | the octave is negative exactly below MIDI 12; from MIDI 0 on, octave and name index give back the MIDI number |
| Pitch.Cents | src/transforms.rs:184-187 | the cents differ from the rounded hundredths by whole semitones, lie below 50, and for non-negative input lie in [-50, 49] |
| Pitch.NatToString | src/transforms.rs:189 | the decimal form of a number is a non-empty string of digits |
| Pitch.DigitsValueOfNatToString | src/transforms.rs:189 | the decimal digits read back as the number |
| Pitch.SignedToString | src/transforms.rs:189 | the `{:+}` form: an explicit sign, '+' for zero too |
| Pitch.Label | src/transforms.rs:189 | name, octave, a space and the signed cents; its partner is `ParseLabel`, related to it by `ParseLabelRoundTrip` |
| Pitch.HzToPitch | src/transforms.rs:177-189 | "< C1" below MIDI 12, otherwise the label of the note's name, octave and cents as written; its properties are stated by `HzToPitchDeterminesNote`, `ShownHzToPitch` and the examples |
| Pitch.IndexOfName | src/transforms.rs:159-172 | partner definition, not a model of source code: the label parser's lookup in the name table, the inverse of indexing it; a name that is found is the note name at that index |
| Pitch.IndexOfNameOfPitchName | src/transforms.rs:159-172 | every note name is found at its own index: the twelve names are distinct |
| Pitch.ParseNatOfNatToString | src/transforms.rs:189 | the octave as formatted parses back |
| Pitch.ParseSignedOfSignedToString | src/transforms.rs:189 | the `{:+}` form of every integer, zero included, parses back |
| Pitch.ParseLabel | src/transforms.rs:189 | partner definition, not a model of source code: the parser that reads a label back into note index, octave and cents |
| Pitch.FirstSpace | src/transforms.rs:189 | partner definition, not a model of source code: the label parser's split at the space `format!` writes; the index found is that of the first space, or the length when there is none |
| Pitch.FirstSpaceAt | src/transforms.rs:189 | about the partner parser, not a model of source code: a space with no space before it is the first space |
| Pitch.NameShape | src/transforms.rs:159-172 | a fact about the name table that the partner parser needs: every note name is one letter, optionally followed by '#' or 'b' |
| Pitch.SplitAfterName | src/transforms.rs:189 | about the partner parser, not a model of source code: a note name followed by a digit splits back into that name and that rest |
| Pitch.ParseOctaveAndCentsRoundTrip | src/transforms.rs:189 | octave, a space and the signed cents parse back to octave and cents |
| Pitch.ParseLabelRoundTrip | src/transforms.rs:189 | every label `format!` builds parses back to its note index, octave and cents |
| Pitch.Shown | src/transforms.rs:189 | partner definition, not a model of source code: the hundredths of a MIDI number that a label names |
| Pitch.BelowC1IsNotALabel | src/transforms.rs:180-182 | the answer below MIDI 12 cannot be read as a note |
| Pitch.HzToPitchDeterminesNote | src/transforms.rs:177-189 | from MIDI 12 on the answer is never "< C1", and two answers are equal exactly when the rounded MIDI numbers and the cents are |
| Pitch.ConcertA | src/transforms.rs:192-195 | 440 Hz (MIDI 69) reads "A4 +0" |
| Pitch.A2 | src/transforms.rs:197-200 | 110 Hz (MIDI 45) reads "A2 +0" |
| Pitch.MiddleC | src/transforms.rs:202-205 | 261.63 Hz (MIDI 60) reads "C4 +0" |
| Pitch.F5 | src/transforms.rs:207-210 | 698.46 Hz (MIDI 77) reads "F5 +0" |
| Pitch.BelowC1 | src/transforms.rs:179-182 | MIDI 11 reads "< C1", and MIDI 12 is already "C0 +0" |
| Pitch.ShownHzToPitch | src/transforms.rs:177-189 | from MIDI 12 on, the label shows 100 times the rounded MIDI number plus the cents as written |
| Pitch.ShownLabel | src/transforms.rs:178-189 | the label with the note's name and octave shows the note's hundredths plus the cents |
| Pitch.CentsNearNote | src/transforms.rs:184-187 | when the two roundings agree, the cents as written are the offset from the note, except at +50, which becomes -50 |
| Pitch.QuarterToneSharpAsWritten | src/transforms.rs:184-187 | MIDI 69.495 to 69.5 (rounded pitch 69, hundredths 6950) reads "A4 -50", which shows 68.5 instead of 69.5 |
| Pitch.HzToPitchShowsPitchUnlessHalfSharp | src/transforms.rs:177-189 | as written, the label shows the MIDI number's hundredths, except half a semitone sharp, where it shows one semitone less |
| Pitch.CentsCorrected | src/transforms.rs:184-187 | the corrected cents, measured from the named note; its properties are stated by `HzToPitchCorrectedShowsPitch` and `HzToPitchCorrectedAgrees` |
| Pitch.HzToPitchCorrected | src/transforms.rs:177-189 | hz_to_pitch with the corrected cents; its properties are stated by `ShownHzToPitchCorrected`, `HzToPitchCorrectedShowsPitch` and `HzToPitchCorrectedAgrees` |
| Pitch.ShownHzToPitchCorrected | src/transforms.rs:177-189 | corrected, the label shows the note's hundredths plus the corrected cents |
| Pitch.HzToPitchCorrectedShowsPitch | src/transforms.rs:177-189 | corrected, from MIDI 12 on, the label always shows exactly the MIDI number's hundredths |
| Pitch.HzToPitchCorrectedAgrees | src/transforms.rs:184-187 | when the two roundings agree, the corrected label equals the original one exactly when it is not half a semitone sharp |

## Notes on the code

- `jsArrayToF32ArrayPtr` and `jsArrayToF32ArrayPtrMutateInPlace` have no
  `try/finally`, although their doc comment (web/main.js:46-48) says the heap
  memory is freed automatically afterwards. A callback that throws, or a
  RangeError after malloc, leaves the block allocated.
- The frame rate is `100000 / (timestamp - lastTimestamp)` after a hundred
  frames (web/main.js:208-210), so a hundred frames 10 ms apart report 100
  frames per second.
- The colour intensities are not clamped (web/main.js:224-234). An error of
  ±50 gives 256.
- `find_fundamental_frequency_correlation` breaks at the first offset o whose
  value exceeds the value at o − 1, having zeroed the entries 0 … o − 2
  (src/transforms.rs:63-68). The entry just before the rise is kept. Without
  any rise it zeroes every entry but the last.

## Left out

- The page's I/O is not modelled: browser support detection, fetching and instantiating the module, the microphone and analyser, `requestAnimationFrame` and the DOM elements, because they are the environment, not the boundary's logic.
- `drawDebugGraph` and the canvas are not modelled, because drawing has no effect on the state the model tracks.
- `toFixed(2)` is not modelled; the labels hold the numbers, because decimal float formatting is not part of the page's logic.
- The module's exports are not modelled; malloc, free and free_str are parameters or log entries, because their code is in the Rust crate outside this core.
- Boundary.Page.JsArrayToF32ArrayPtr, Boundary.Page.CopyToHeap, Boundary.Page.FindFundamentalFrequencyNoFree and Boundary.Page.Update assume malloc succeeds and returns a block inside memory; an allocation failure, which traps the instance, is not modelled.
- Boundary.Exports: the model assumes malloc, free, free_str and the exports write linear memory only where stated: `hz_to_pitch` writes its string, and `correlation` writes the block. The allocator's own bookkeeping and the exports' heap allocations are not modelled, because that code is outside this core; the `Write` equations of the page methods hold under this assumption.
- Boundary.Page: the model assumes linear memory never grows; it has a fixed size. Growth happens inside the module, when malloc needs more memory, and it would detach the `dataHeap` view that `findFundamentalFrequencyNoFree` keeps (web/main.js:121-123). The allocator is outside this core.
- Float values are not modelled; a Float32Array element is its 32-bit pattern, because the page only moves the bytes. This covers NaN payloads, infinities and the f64 to f32 conversion of `new Float32Array(jsArray)`.
- UTF-8 decoding is a parameter of `CopyCStr`, because `TextDecoder` is a browser API.
- `fft`'s mean subtraction and DFT, from `dft::transform`, are not modelled; the intensities are an input, because the DFT is foreign code. Only the bucket layout is modelled.
- Transforms.FindFundamentalFrequencyCorrelation: stops at the peak index; `peak_index / sample_rate` and its reciprocal, which is infinite for index 0, are float arithmetic and are not modelled.
- Transforms (every function): the buckets, `AverageIntensity`, `Threshold`'s division, the fold, `LagSum` and `Correlation` work on exact reals rather than f32/f64, so rounding is not modelled.
- Indicators.Number, Indicators.PitchIndicator, Indicators.FrameRate: a JavaScript number is NaN or an exact real. ±Infinity is missing: an infinite cents error would give `Math.floor(±Infinity)` colours and a bar at "Infinity%" (web/main.js:224-235). Double rounding of `256*error/50`, `error+50` and `timestamp - lastTimestamp` is not modelled either; the one infinity represented is the frame rate at dt = 0.
- Pitch.HzToPitch: takes round(m) and round(100·m) of the MIDI number m = 69 + 12·log2(hz/440) as inputs. The logarithm and the roundings are floating point; `Consistent` states how the two inputs relate.
- Transforms.EnergyIsNonNegative: states `>= 0` rather than strict positivity for a non-zero signal, because the model needs only the non-strict bound.
- The sine-wave tests in `src/transforms.rs` (lines 104-155) are not modelled. They sample `sin`, and two of them pass the samples through `fft`'s DFT, the other two through `find_fundamental_frequency_correlation` and its final division. The `hz_to_pitch` tests are the examples above.

## Findings

| source | as written | input that shows it | evidently intended | confidence | as-written member | corrected member |
|---|---|---|---|---|---|---|
| src/transforms.rs:177-187 | the note comes from round(m), but the cents come from round(100·m) mod 100, wrapped at 50 independently of that note | m in [69.495, 69.5): rounded pitch 69, hundredths 6950, "A4 -50", which names 68.5 | the cents measured from the named note, c − 100·rp, so the label shows m ("A4 +50") | not executed | Pitch.QuarterToneSharpAsWritten, Pitch.HzToPitchShowsPitchUnlessHalfSharp | Pitch.HzToPitchCorrectedShowsPitch, Pitch.HzToPitchCorrectedAgrees |
