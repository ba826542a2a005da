# flutter_tflite detection decoder and frame assembly, in Dafny

This project models the data-transforming core of the Android side of the
`tflite` Flutter plugin (`TflitePlugin.java`):

- the **SSD detection decoder** of `parseSSDMobileNet`. The inference backend fills
  ten candidate slots, each with a box `(ymin, xmin, ymax, xmax)`, a class index and
  a score. The decoder walks the slots in their native order 0..9. It skips a slot
  whose score is below the threshold. It reads the label table at offset one,
  `labels[class + 1]`. It keeps a per-label counter in a hash map and
  rejects a slot once its label has reached `numResultsPerClass`. The first
  occurrence of a label is always accepted. Each kept box gets its origin clamped
  to be non-negative and its extent cut at the right and bottom edges. When the raw
  corner lies past 1, or after the far corner, the box is not inside the unit square.
- the **NV21 buffer assembly** of `feedInputTensorFrame`: one fresh byte array
  holding the Y plane, then the V plane, then the U plane;
- the plugin object's **label table and teardown**: loading fills the label
  vector line by line and sizes the probability buffer to it; closing releases the
  interpreter and nulls both.

Layout:

- `ssd_spec.dfy`, module `SsdSpec`: datatypes (`Location`, `Rect`, `Detection`,
  `Outputs`), the pure box clipping `ClipBox`, and two reference definitions of the
  decoder. `Select`/`SelectStep` follow the loop with its counters. `KeptSlots` says
  which slots are kept without counters: slot `j` is kept when it passes the
  threshold, its label resolves, and fewer than `max(1, numResultsPerClass)` earlier
  passing slots carry the same label. `Decode` is the result of one call.
- `ssd_lemmas.dfy`, module `SsdLemmas`: the two references agree, the failure
  condition, slot order, and the exact per-label count.
- `ssd_decoder.dfy`, module `SsdDecoder`: the decode loop as a method over the three
  output arrays with a `map<string, int>` of counters, proved equal to `Decode`; one
  lemma per branch of the loop body (skip, accept, fail).
- `ssd_examples.dfy`, module `SsdExamples`: a worked decode on concrete outputs.
- `nv21.dfy`, module `Nv21`: the plane copy and the NV21 assembly over arrays of
  Java bytes.
- `plugin.dfy`, module `Plugin`: class `TflitePlugin` with the `tfLite`, `labels`
  and `labelProb` fields and the load / close methods.

Scores and coordinates (Java `float`) are `real`. Class indices are Java `int`
values (`Int32`), standing for the `(int)` cast of the class output, and the label
index `class + 1` is computed with 32-bit wrap-around. A label index
outside the table makes `Vector.get` throw and fails the whole call. The model
returns `Err(LabelIndexOutOfRange(slot, index))` for it. Only slots that pass the
threshold are looked up, and the lookup happens before the cap test.

## Notes on the code

- The clipped width is `min(1 - x, xmax - x)`, with `x = max(0, xmin)` the clamped
  origin, not from the raw `xmin`. So for `xmin < 0` the width runs from 0 to `min(1, xmax)`.
  The same holds for the height.
- The origin is only clamped from below: a raw `xmin` (or `ymin`) above 1 stays as
  it is, so the box then starts outside the unit square (`SsdExamples.ClipBoxPastEdge`).
- Width and height are not guaranteed non-negative. `ClipBox` states exactly when
  they are: `w >= 0` iff `xmin <= 1` and `max(0, xmin) <= xmax`.
- A score equal to the threshold is kept, because the skip test is a strict `<`.
- `close()` calls `tfLite.close()` unguarded. So it is not shown to be idempotent,
  and without a loaded model it fails with a null dereference.

## Model

| member | source | states |
|---|---|---|
| `SsdSpec.ClipBox` | android/src/main/java/sq/flutter/tflite/TflitePlugin.java:279-286 | origin `x = max(0, xmin)`, `y = max(0, ymin)` (so `x, y >= 0`, equal to the raw corner when that is non-negative and 0 otherwise); `x + w <= 1`, `y + h <= 1`; `w == xmax - x` (clamped `x`) when `xmax <= 1`, else the box runs to the edge; `w >= 0` exactly when `xmin <= 1` and `x <= xmax` (likewise `h`) |
| `SsdSpec.SelectStep` | android/src/main/java/sq/flutter/tflite/TflitePlugin.java:262-276 | one slot fails the call iff it passes the threshold and its label index is outside the table; a slot below the threshold changes nothing; a slot is kept iff it passes, resolves and its label is admitted; a rejected slot leaves every counter unchanged; a kept slot is appended, raises its own label's counter by exactly one and no other, and adds no counter key other than its own label |
| `SsdSpec.AddInt32` | android/src/main/java/sq/flutter/tflite/TflitePlugin.java:265 | Java `int` addition: the exact sum when it fits in 32 bits, otherwise the sum shifted by 2^32 back into range |
| `SsdSpec.LabelIndex` | android/src/main/java/sq/flutter/tflite/TflitePlugin.java:265 | the looked-up index is `class + 1`, except that the largest `int` class wraps to `-2^31` |
| `SsdSpec.Select` | android/src/main/java/sq/flutter/tflite/TflitePlugin.java:258-294 | after slots 0..i-1 the kept slots are at most i, strictly increasing, each below i, passing the threshold and resolving its label |
| `SsdSpec.Decode` | android/src/main/java/sq/flutter/tflite/TflitePlugin.java:258-296 | at most one result per slot (10 for the decoder's arrays); every result has `confidenceInClass >= threshold`, a label of the table, and a box with non-negative origin inside the right and bottom edges |
| `SsdLemmas.SelectErrPersists` | android/src/main/java/sq/flutter/tflite/TflitePlugin.java:265 | once a lookup has thrown, later slots do not change the outcome |
| `SsdLemmas.SelectFailsIff` | android/src/main/java/sq/flutter/tflite/TflitePlugin.java:261-265 | the call fails iff some slot passes the threshold with its label index (`class + 1` in `int` arithmetic) outside `0 .. labels.size() - 1`; the failure names the first such slot and the index it tried |
| `SsdLemmas.SelectCounters` | android/src/main/java/sq/flutter/tflite/TflitePlugin.java:267-276 | after slots 0..i-1 a label has a counter iff some passing slot had that label, and the counter equals `min(max(1, numResultsPerClass), number of such slots)` |
| `SsdLemmas.AdmitsIffBelowLimit` | android/src/main/java/sq/flutter/tflite/TflitePlugin.java:267-276 | the hash-map cap test (absent, or count below the cap) is equivalent to "fewer than `max(1, numResultsPerClass)` earlier passing slots with this label" |
| `SsdLemmas.SelectKeepsKeptSlots` | android/src/main/java/sq/flutter/tflite/TflitePlugin.java:261-293 | the loop with counters keeps exactly the slots of the counter-free reference `KeptSlots` |
| `SsdLemmas.KeptSlotsMembership` | android/src/main/java/sq/flutter/tflite/TflitePlugin.java:261-293 | kept slots are in strictly increasing slot order, and slot `j` is kept iff it passes, resolves and fewer than `max(1, numResultsPerClass)` earlier passing slots share its label |
| `SsdLemmas.KeptSlotsCount` | android/src/main/java/sq/flutter/tflite/TflitePlugin.java:267-293 | among the detections of kept slots 0..i-1, each label occurs `min(max(1, numResultsPerClass), passing slots with that label)` times |
| `SsdLemmas.DecodeMatchesReference` | android/src/main/java/sq/flutter/tflite/TflitePlugin.java:258-296 | a decode call fails iff some passing slot has an unresolvable class; otherwise it returns the detections of exactly the kept slots, in increasing slot order, with nothing re-sorted |
| `SsdLemmas.DecodePerLabelCount` | android/src/main/java/sq/flutter/tflite/TflitePlugin.java:267-276 | within one call each label appears exactly `min(max(1, numResultsPerClass), passing slots with that label)` times: never more than `max(1, numResultsPerClass)`, and at least once when some slot passed with it, even for a cap `<= 0` |
| `SsdExamples.SameClassCappedAtOne` | android/src/main/java/sq/flutter/tflite/TflitePlugin.java:261-293 | two passing slots of class 0 with cap 1: only slot 0 is returned, labelled `labels[1]`, with its box clipped to `x = 0`, `w = 1` |
| `SsdExamples.ClipBoxPastEdge` | android/src/main/java/sq/flutter/tflite/TflitePlugin.java:279-286 | a box whose raw left edge is at 1.5 keeps its origin at 1.5 and gets width -0.5: the clipped box is not inside the unit square |
| `SsdDecoder.SkipStep` | android/src/main/java/sq/flutter/tflite/TflitePlugin.java:262-272 | a slot below the threshold, or one whose label has reached its cap, leaves the counters and results as they were |
| `SsdDecoder.AcceptStep` | android/src/main/java/sq/flutter/tflite/TflitePlugin.java:267-293 | an admitted slot raises its label's counter by one and appends its detection (clipped box, score, label) to the results |
| `SsdDecoder.FailStep` | android/src/main/java/sq/flutter/tflite/TflitePlugin.java:265 | a passing slot whose label index is outside the table makes the whole call fail with that slot and index |
| `SsdDecoder.ParseSsdMobileNet` | android/src/main/java/sq/flutter/tflite/TflitePlugin.java:238-296 | the loop over the 10 output slots with a hash map of counters returns exactly `Decode` of the three output arrays, so all the lemmas above hold of it |
| `Nv21.CopyPlane` | android/src/main/java/sq/flutter/tflite/TflitePlugin.java:141-143 | a bulk get puts the whole plane at the offset and leaves the rest of the destination unchanged |
| `Nv21.AssembleNv21` | android/src/main/java/sq/flutter/tflite/TflitePlugin.java:131-143 | a fresh array of length `Yb + Ub + Vb` holding Y in `[0, Yb)`, V in `[Yb, Yb + Vb)` and U in `[Yb + Vb, Yb + Ub + Vb)`, V before U |
| `Plugin.TflitePlugin.constructor` | android/src/main/java/sq/flutter/tflite/TflitePlugin.java:47-60 | a new plugin has no interpreter, no label table and no probability buffer |
| `Plugin.TflitePlugin.LoadLabels` | android/src/main/java/sq/flutter/tflite/TflitePlugin.java:106-120 | the label table is exactly the file's lines in order; the probability buffer is fresh, one row of `labels.size()` zeros; the interpreter is untouched |
| `Plugin.TflitePlugin.LoadModel` | android/src/main/java/sq/flutter/tflite/TflitePlugin.java:83-104 | after loading, the interpreter is live, the label table is the given lines and the buffer is fresh, one row of `labels.size()` zeros, as `LoadLabels` makes it, and the result is `"success"` |
| `Plugin.TflitePlugin.Close` | android/src/main/java/sq/flutter/tflite/TflitePlugin.java:299-303 | with an interpreter whose own close succeeds, the interpreter is released and `labels` and `labelProb` are null; with no interpreter (null dereference) or a failing backend close nothing changes |

## Left out

- YUV to RGBA conversion (`renderScriptNV21ToRGBA888`): a RenderScript intrinsic whose arithmetic is not visible.
- Bitmap rotation with `Matrix` / `Bitmap.createBitmap` in `feedInputTensorFrame`: Android graphics library, not visible.
- `feedInputTensor` and `GetTopN` are called but not defined in `TflitePlugin.java`. They are not part of this model, so pixel normalisation and top-N classification are not modelled.
- Interpreter construction, `run` and `runForMultipleInputsOutputs`: an opaque backend. The decoder's inputs are the output arrays as the backend filled them.
- Memory-mapping the model file, opening images, and reading the label file. `LoadLabels` takes the lines the reader yields. Read errors are not modelled: the `IOException` turned into a `RuntimeException` when the label file cannot be read.
- Method-channel dispatch and the untyped argument unpacking of `loadModel`, `runModelOnImage`, `runModelOnBinary`, `detectObjectOnImage` and `detectObjectOnFrame`. This is boundary plumbing. `runModelOnImage`, `runModelOnBinary` and `detectObjectOnFrame` are not reachable from `onMethodCall`.
- Timing logs and float rounding: scores and coordinates are `real`, and the `(int)` cast of the class output is taken as already applied. NaN is outside the `real` model too: a NaN score is not `< threshold`, so the code lets it through and returns it with a NaN `confidenceInClass`; `Decode`'s `confidenceInClass >= threshold` holds only for non-NaN scores.
- `SsdDecoder.ParseSsdMobileNet`: results are `Detection` values, not the string-keyed hash maps the code builds for the channel.
- `Nv21.AssembleNv21`: does not model Java `int` overflow of `Yb + Ub + Vb` for planes totalling 2^31 bytes or more.
- `Plugin.TflitePlugin.Close`: the interpreter's own `close()` is a foreign call, so its outcome is a parameter. No claim is made that a second `close()` is harmless.
- `Plugin.TflitePlugin.LoadModel`: the thread-count option and the model bytes are not modelled; only the state change (a live interpreter, then the label table) is.
