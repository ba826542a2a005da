/** The decode loop of `parseSSDMobileNet`, over the three output arrays the inference
    backend fills, with the per-label counters in a map and the results in a list that
    grows as slots are accepted.  It is proved equal to SsdSpec.Decode, whose
    properties are in module SsdLemmas. */
module SsdDecoder {
  import opened SsdSpec
  import SsdLemmas

  /** The loop state after slots 0 .. i-1 is the reference state, and the results
      are the detections of the slots kept so far. */
  ghost predicate Reached(out: Outputs, labels: seq<string>, numResultsPerClass: int, threshold: real,
                          i: nat, counters: map<string, int>, kept: seq<nat>, results: seq<Detection>)
    requires out.Valid() && i <= out.Size()
  {
    && Select(out, labels, numResultsPerClass, threshold, i) == Ok(Selection(counters, kept))
    && results == DetectionsAt(out, labels, kept)
  }

  /** A slot that is skipped (below the threshold, or its label capped) leaves the state as it was. */
  lemma SkipStep(out: Outputs, labels: seq<string>, numResultsPerClass: int, threshold: real,
                 i: nat, counters: map<string, int>, kept: seq<nat>, results: seq<Detection>)
    requires out.Valid() && i < out.Size()
    requires Reached(out, labels, numResultsPerClass, threshold, i, counters, kept, results)
    requires !Passes(out, threshold, i)
             || (Resolves(out, labels, i) && !Admits(counters, LabelOf(out, labels, i), numResultsPerClass))
    ensures Reached(out, labels, numResultsPerClass, threshold, i + 1, counters, kept, results)
  {
  }

  /** A slot whose label is admitted is appended and its label's counter raised. */
  lemma AcceptStep(out: Outputs, labels: seq<string>, numResultsPerClass: int, threshold: real,
                   i: nat, counters: map<string, int>, kept: seq<nat>, results: seq<Detection>)
    requires out.Valid() && i < out.Size()
    requires Reached(out, labels, numResultsPerClass, threshold, i, counters, kept, results)
    requires Passes(out, threshold, i) && Resolves(out, labels, i)
    requires Admits(counters, LabelOf(out, labels, i), numResultsPerClass)
    ensures var name := LabelOf(out, labels, i);
            Reached(out, labels, numResultsPerClass, threshold, i + 1,
                    counters[name := Count(counters, name) + 1], kept + [i],
                    results + [DetectionAt(out, labels, i)])
  {
    SsdLemmas.DetectionsAtSnoc(out, labels, kept, i);
  }

  /** A slot whose label lookup fails makes the whole call fail. */
  lemma FailStep(out: Outputs, labels: seq<string>, numResultsPerClass: int, threshold: real,
                 i: nat, counters: map<string, int>, kept: seq<nat>, results: seq<Detection>)
    requires out.Valid() && i < out.Size()
    requires Reached(out, labels, numResultsPerClass, threshold, i, counters, kept, results)
    requires Unresolvable(out, labels, threshold, i)
    ensures Decode(out, labels, numResultsPerClass, threshold) == Err(LabelIndexOutOfRange(i, LabelIndex(out, i)))
  {
    SsdLemmas.SelectErrPersists(out, labels, numResultsPerClass, threshold, i + 1, out.Size());
  }

  method ParseSsdMobileNet(labels: seq<string>, outputLocations: array<Location>, outputClasses: array<Int32>,
                           outputScores: array<real>, numResultsPerClass: int, threshold: real)
    returns (r: Result<seq<Detection>>)
    requires outputLocations.Length == NUM_DETECTIONS
    requires outputClasses.Length == NUM_DETECTIONS
    requires outputScores.Length == NUM_DETECTIONS
    ensures r == Decode(Outputs(outputLocations[..], outputClasses[..], outputScores[..]),
                        labels, numResultsPerClass, threshold)
  {
    ghost var out := Outputs(outputLocations[..], outputClasses[..], outputScores[..]);
    var counters: map<string, int> := map[];
    var results: seq<Detection> := [];
    ghost var kept: seq<nat> := [];

    for i := 0 to NUM_DETECTIONS
      invariant Reached(out, labels, numResultsPerClass, threshold, i, counters, kept, results)
    {
      assert out.scores[i] == outputScores[i] && out.classes[i] == outputClasses[i];
      if outputScores[i] < threshold {
        SkipStep(out, labels, numResultsPerClass, threshold, i, counters, kept, results);
        continue;
      }

      var index := AddInt32(outputClasses[i], 1) as int;
      if !(0 <= index < |labels|) {
        FailStep(out, labels, numResultsPerClass, threshold, i, counters, kept, results);
        r := Err(LabelIndexOutOfRange(i, index));
        return;
      }
      var detectedClass := labels[index];

      if detectedClass !in counters {
        AcceptStep(out, labels, numResultsPerClass, threshold, i, counters, kept, results);
        counters := counters[detectedClass := 1];
      } else {
        var count := counters[detectedClass];
        if count >= numResultsPerClass {
          SkipStep(out, labels, numResultsPerClass, threshold, i, counters, kept, results);
          continue;
        } else {
          AcceptStep(out, labels, numResultsPerClass, threshold, i, counters, kept, results);
          counters := counters[detectedClass := count + 1];
        }
      }

      var rect := ClipBox(outputLocations[i]);
      results := results + [Detection(rect, outputScores[i], detectedClass)];
      kept := kept + [i];
    }
    r := Ok(results);
  }
}
