/** A worked decode: the per-label cap on a concrete output of the detector. */
module SsdExamples {
  import opened SsdSpec
  import SsdLemmas

  /** Ten slots with the same box; slots 0 and 1 score 0.9 with class 0, the rest
      score 0.1 with class 1. */
  function TwoPeople(): (out: Outputs)
    ensures out.Valid() && out.Size() == NUM_DETECTIONS
  {
    Outputs(seq(NUM_DETECTIONS, _ => Location(0.1, -0.1, 0.5, 1.2)),
            seq(NUM_DETECTIONS, k => if k < 2 then 0 else 1),
            seq(NUM_DETECTIONS, k => if k < 2 then 0.9 else 0.1))
  }

  const Labels: seq<string> := ["???", "person", "bicycle"]

  lemma TwoPeopleKeptSlotsHalf()
    ensures KeptSlots(TwoPeople(), Labels, 1, 0.5, 5) == [0]
  {
    var out := TwoPeople();
    assert KeptSlots(out, Labels, 1, 0.5, 1) == [0];
    assert Hits(out, Labels, 0.5, 1, "person") == 1;
    assert KeptSlots(out, Labels, 1, 0.5, 2) == [0];
    assert !Passes(out, 0.5, 2);
    assert KeptSlots(out, Labels, 1, 0.5, 3) == [0];
    assert !Passes(out, 0.5, 3);
    assert KeptSlots(out, Labels, 1, 0.5, 4) == [0];
    assert !Passes(out, 0.5, 4);
  }

  lemma TwoPeopleKeptSlots()
    ensures KeptSlots(TwoPeople(), Labels, 1, 0.5, 10) == [0]
  {
    var out := TwoPeople();
    TwoPeopleKeptSlotsHalf();
    assert !Passes(out, 0.5, 5);
    assert KeptSlots(out, Labels, 1, 0.5, 6) == [0];
    assert !Passes(out, 0.5, 6);
    assert KeptSlots(out, Labels, 1, 0.5, 7) == [0];
    assert !Passes(out, 0.5, 7);
    assert KeptSlots(out, Labels, 1, 0.5, 8) == [0];
    assert !Passes(out, 0.5, 8);
    assert KeptSlots(out, Labels, 1, 0.5, 9) == [0];
    assert !Passes(out, 0.5, 9);
  }

  lemma TwoPeopleSlotZero()
    ensures Resolves(TwoPeople(), Labels, 0)
    ensures DetectionsAt(TwoPeople(), Labels, [0]) == [Detection(Rect(0.0, 0.1, 1.0, 0.4), 0.9, "person")]
  {
    var out := TwoPeople();
    assert Resolves(out, Labels, 0);
    assert ClipBox(out.locations[0]) == Rect(0.0, 0.1, 1.0, 0.4);
    assert DetectionsAt(out, Labels, [0])[0] == DetectionAt(out, Labels, 0);
  }

  /** The origin is only clamped from below: a box starting right of the square stays
      there, with a negative width. */
  lemma ClipBoxPastEdge()
    ensures ClipBox(Location(0.0, 1.5, 0.5, 2.0)) == Rect(1.5, 0.0, -0.5, 0.5)
  {
  }

  lemma TwoPeopleNoFailure()
    ensures Select(TwoPeople(), Labels, 1, 0.5, 10).Ok?
  {
    var out := TwoPeople();
    forall j | 0 <= j < 10 ensures !Unresolvable(out, Labels, 0.5, j) {
      assert LabelIndex(out, j) == out.classes[j] as int + 1;
    }
    SsdLemmas.SelectFailsIff(out, Labels, 1, 0.5, 10);
  }

  /** Two passing slots of the same class with a cap of one: only the first is returned,
      labelled `Labels[1]`, with its box clipped at the left and right edges. */
  lemma SameClassCappedAtOne()
    ensures Decode(TwoPeople(), Labels, 1, 0.5)
              == Ok([Detection(Rect(0.0, 0.1, 1.0, 0.4), 0.9, "person")])
  {
    TwoPeopleNoFailure();
    SsdLemmas.SelectKeepsKeptSlots(TwoPeople(), Labels, 1, 0.5, 10);
    TwoPeopleKeptSlots();
    TwoPeopleSlotZero();
  }
}
