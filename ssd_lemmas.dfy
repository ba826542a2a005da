/** Properties of the SSD detection decoder, proved about the reference definitions
    of module SsdSpec: when the call fails, which slots are kept, in which order, and
    how many results each label gets. */
module SsdLemmas {
  import opened SsdSpec

  /** Once a slot has failed the call, later slots change nothing. */
  lemma {:induction false} SelectErrPersists(out: Outputs, labels: seq<string>, numResultsPerClass: int,
                                             threshold: real, j: nat, i: nat)
    requires out.Valid() && j <= i <= out.Size()
    requires Select(out, labels, numResultsPerClass, threshold, j).Err?
    ensures Select(out, labels, numResultsPerClass, threshold, i) == Select(out, labels, numResultsPerClass, threshold, j)
    decreases i
  {
    if i > j {
      SelectErrPersists(out, labels, numResultsPerClass, threshold, j, i - 1);
    }
  }

  /** The decoder fails on the slots seen so far exactly when one of them passes the
      threshold with a class whose label index is outside the table; the failure names
      the first such slot and the index it tried. */
  lemma {:induction false} SelectFailsIff(out: Outputs, labels: seq<string>, numResultsPerClass: int,
                                          threshold: real, i: nat)
    requires out.Valid() && i <= out.Size()
    ensures Select(out, labels, numResultsPerClass, threshold, i).Err?
            <==> exists j :: 0 <= j < i && Unresolvable(out, labels, threshold, j)
    ensures Select(out, labels, numResultsPerClass, threshold, i).Err? ==>
              var e := Select(out, labels, numResultsPerClass, threshold, i).error;
              && e.slot < i
              && Unresolvable(out, labels, threshold, e.slot)
              && e.index == LabelIndex(out, e.slot)
              && (forall j :: 0 <= j < e.slot ==> !Unresolvable(out, labels, threshold, j))
    decreases i
  {
    if i > 0 {
      SelectFailsIff(out, labels, numResultsPerClass, threshold, i - 1);
      var prev := Select(out, labels, numResultsPerClass, threshold, i - 1);
      if prev.Ok? {
        // no slot before i-1 is unresolvable, so the question is slot i-1 alone
        assert forall j :: 0 <= j < i - 1 ==> !Unresolvable(out, labels, threshold, j);
      }
    }
  }

  /** After slots 0 .. i-1 a label's counter is present exactly when some of those slots
      passed with that label, and then equals how many did, saturated at Limit. */
  lemma {:induction false} SelectCounters(out: Outputs, labels: seq<string>, numResultsPerClass: int,
                                          threshold: real, i: nat, name: string)
    requires out.Valid() && i <= out.Size()
    requires Select(out, labels, numResultsPerClass, threshold, i).Ok?
    ensures var sel := Select(out, labels, numResultsPerClass, threshold, i).value;
            && (name in sel.counters <==> Hits(out, labels, threshold, i, name) >= 1)
            && Count(sel.counters, name) == MinInt(Limit(numResultsPerClass), Hits(out, labels, threshold, i, name))
    decreases i
  {
    if i > 0 {
      var prev := Select(out, labels, numResultsPerClass, threshold, i - 1);
      assert prev.Ok?;
      SelectCounters(out, labels, numResultsPerClass, threshold, i - 1, name);
    }
  }

  /** The counter-based cap test agrees with the counter-free one. */
  lemma AdmitsIffBelowLimit(out: Outputs, labels: seq<string>, numResultsPerClass: int,
                            threshold: real, i: nat)
    requires out.Valid() && i < out.Size()
    requires Select(out, labels, numResultsPerClass, threshold, i).Ok?
    requires Resolves(out, labels, i)
    ensures Admits(Select(out, labels, numResultsPerClass, threshold, i).value.counters,
                   LabelOf(out, labels, i), numResultsPerClass)
            <==> Hits(out, labels, threshold, i, LabelOf(out, labels, i)) < Limit(numResultsPerClass)
  {
    SelectCounters(out, labels, numResultsPerClass, threshold, i, LabelOf(out, labels, i));
  }

  /** The step-by-step decoder keeps exactly the slots of the counter-free reference. */
  lemma {:induction false} SelectKeepsKeptSlots(out: Outputs, labels: seq<string>, numResultsPerClass: int,
                                                threshold: real, i: nat)
    requires out.Valid() && i <= out.Size()
    requires Select(out, labels, numResultsPerClass, threshold, i).Ok?
    ensures Select(out, labels, numResultsPerClass, threshold, i).value.kept
            == KeptSlots(out, labels, numResultsPerClass, threshold, i)
    decreases i
  {
    if i > 0 {
      var prev := Select(out, labels, numResultsPerClass, threshold, i - 1);
      assert prev.Ok?;
      SelectKeepsKeptSlots(out, labels, numResultsPerClass, threshold, i - 1);
      if Passes(out, threshold, i - 1) && Resolves(out, labels, i - 1) {
        AdmitsIffBelowLimit(out, labels, numResultsPerClass, threshold, i - 1);
      }
    }
  }

  /** The reference keeps slots in increasing slot order, and slot j is among them
      exactly when Keeps says so. */
  lemma {:induction false} KeptSlotsMembership(out: Outputs, labels: seq<string>, numResultsPerClass: int,
                                               threshold: real, i: nat)
    requires out.Valid() && i <= out.Size()
    ensures StrictlyIncreasing(KeptSlots(out, labels, numResultsPerClass, threshold, i))
    ensures forall j :: 0 <= j < i ==>
              (j in KeptSlots(out, labels, numResultsPerClass, threshold, i)
               <==> Keeps(out, labels, numResultsPerClass, threshold, j))
  {
    KeptSlotsIncreasing(out, labels, numResultsPerClass, threshold, i);
    KeptSlotsExactly(out, labels, numResultsPerClass, threshold, i);
  }

  lemma {:induction false} KeptSlotsIncreasing(out: Outputs, labels: seq<string>, numResultsPerClass: int,
                                               threshold: real, i: nat)
    requires out.Valid() && i <= out.Size()
    ensures StrictlyIncreasing(KeptSlots(out, labels, numResultsPerClass, threshold, i))
    decreases i
  {
    if i > 0 {
      KeptSlotsIncreasing(out, labels, numResultsPerClass, threshold, i - 1);
      var ks := KeptSlots(out, labels, numResultsPerClass, threshold, i - 1);
      if Keeps(out, labels, numResultsPerClass, threshold, i - 1) {
        assert KeptSlots(out, labels, numResultsPerClass, threshold, i) == ks + [i - 1];
      } else {
        assert KeptSlots(out, labels, numResultsPerClass, threshold, i) == ks + [] == ks;
      }
    }
  }

  lemma {:induction false} KeptSlotsExactly(out: Outputs, labels: seq<string>, numResultsPerClass: int,
                                            threshold: real, i: nat)
    requires out.Valid() && i <= out.Size()
    ensures forall j :: 0 <= j < i ==>
              (j in KeptSlots(out, labels, numResultsPerClass, threshold, i)
               <==> Keeps(out, labels, numResultsPerClass, threshold, j))
    decreases i
  {
    if i > 0 {
      KeptSlotsExactly(out, labels, numResultsPerClass, threshold, i - 1);
      var ks := KeptSlots(out, labels, numResultsPerClass, threshold, i - 1);
      if Keeps(out, labels, numResultsPerClass, threshold, i - 1) {
        assert KeptSlots(out, labels, numResultsPerClass, threshold, i) == ks + [i - 1];
      } else {
        assert KeptSlots(out, labels, numResultsPerClass, threshold, i) == ks + [] == ks;
      }
    }
  }

  lemma DetectionsAtSnoc(out: Outputs, labels: seq<string>, ks: seq<nat>, j: nat)
    requires out.Valid() && j < out.Size() && Resolves(out, labels, j)
    requires forall k :: 0 <= k < |ks| ==> ks[k] < out.Size() && Resolves(out, labels, ks[k])
    ensures DetectionsAt(out, labels, ks + [j]) == DetectionsAt(out, labels, ks) + [DetectionAt(out, labels, j)]
  {
  }

  lemma CountLabelSnoc(ds: seq<Detection>, d: Detection, name: string)
    ensures CountLabel(ds + [d], name) == CountLabel(ds, name) + (if d.detectedClass == name then 1 else 0)
  {
  }

  /** Among the detections of the kept slots 0 .. i-1, a label occurs as many times as
      slots passed with it, saturated at Limit. */
  lemma {:induction false} KeptSlotsCount(out: Outputs, labels: seq<string>, numResultsPerClass: int,
                                          threshold: real, i: nat, name: string)
    requires out.Valid() && i <= out.Size()
    ensures CountLabel(DetectionsAt(out, labels, KeptSlots(out, labels, numResultsPerClass, threshold, i)), name)
            == MinInt(Limit(numResultsPerClass), Hits(out, labels, threshold, i, name))
    decreases i
  {
    if i > 0 {
      KeptSlotsCount(out, labels, numResultsPerClass, threshold, i - 1, name);
      KeptSlotsDetectionsStep(out, labels, numResultsPerClass, threshold, i);
      var ds := DetectionsAt(out, labels, KeptSlots(out, labels, numResultsPerClass, threshold, i - 1));
      var before := Hits(out, labels, threshold, i - 1, name);
      var hit := Hit(out, labels, threshold, i - 1, name);
      assert Hits(out, labels, threshold, i, name) == before + (if hit then 1 else 0);
      if Keeps(out, labels, numResultsPerClass, threshold, i - 1) {
        KeptSlotsCountKeep(out, labels, numResultsPerClass, threshold, i - 1, name);
        CountLabelSnoc(ds, DetectionAt(out, labels, i - 1), name);
      } else {
        assert ds + [] == ds;
        assert hit ==> before >= Limit(numResultsPerClass);
      }
    }
  }

  /** One more slot appends its detection to those of the kept slots exactly when it is kept. */
  lemma KeptSlotsDetectionsStep(out: Outputs, labels: seq<string>, numResultsPerClass: int,
                                threshold: real, i: nat)
    requires out.Valid() && 0 < i <= out.Size()
    ensures var ks := KeptSlots(out, labels, numResultsPerClass, threshold, i - 1);
            DetectionsAt(out, labels, KeptSlots(out, labels, numResultsPerClass, threshold, i))
            == DetectionsAt(out, labels, ks)
               + (if Keeps(out, labels, numResultsPerClass, threshold, i - 1)
                  then [DetectionAt(out, labels, i - 1)] else [])
  {
    var ks := KeptSlots(out, labels, numResultsPerClass, threshold, i - 1);
    if Keeps(out, labels, numResultsPerClass, threshold, i - 1) {
      DetectionsAtSnoc(out, labels, ks, i - 1);
    } else {
      assert KeptSlots(out, labels, numResultsPerClass, threshold, i) == ks + [] == ks;
    }
  }

  /** A kept slot carries `name` exactly when it is a hit of `name`, and then `name` is
      still below its limit. */
  lemma KeptSlotsCountKeep(out: Outputs, labels: seq<string>, numResultsPerClass: int,
                           threshold: real, j: nat, name: string)
    requires out.Valid() && j < out.Size()
    requires Keeps(out, labels, numResultsPerClass, threshold, j)
    ensures DetectionAt(out, labels, j).detectedClass == name <==> Hit(out, labels, threshold, j, name)
    ensures Hit(out, labels, threshold, j, name) ==> Hits(out, labels, threshold, j, name) < Limit(numResultsPerClass)
  {
  }

  /** The decode call, characterised without counters: it fails exactly when some slot
      passes the threshold with an unresolvable class, and otherwise returns the
      detections of the kept slots in increasing slot order. */
  lemma DecodeMatchesReference(out: Outputs, labels: seq<string>, numResultsPerClass: int, threshold: real)
    requires out.Valid()
    ensures Decode(out, labels, numResultsPerClass, threshold).Err?
            <==> exists j :: 0 <= j < out.Size() && Unresolvable(out, labels, threshold, j)
    ensures Decode(out, labels, numResultsPerClass, threshold).Ok? ==>
              var ks := KeptSlots(out, labels, numResultsPerClass, threshold, out.Size());
              && StrictlyIncreasing(ks)
              && (forall j :: 0 <= j < out.Size() ==> (j in ks <==> Keeps(out, labels, numResultsPerClass, threshold, j)))
              && Decode(out, labels, numResultsPerClass, threshold).value == DetectionsAt(out, labels, ks)
  {
    SelectFailsIff(out, labels, numResultsPerClass, threshold, out.Size());
    KeptSlotsMembership(out, labels, numResultsPerClass, threshold, out.Size());
    if Select(out, labels, numResultsPerClass, threshold, out.Size()).Ok? {
      SelectKeepsKeptSlots(out, labels, numResultsPerClass, threshold, out.Size());
    }
  }

  /** Per-label cap: within one call each label is returned as many times as slots passed
      with it, but never more than max(1, numResultsPerClass); in particular a label of
      some passing slot is always returned at least once. */
  lemma DecodePerLabelCount(out: Outputs, labels: seq<string>, numResultsPerClass: int,
                            threshold: real, name: string)
    requires out.Valid()
    requires Decode(out, labels, numResultsPerClass, threshold).Ok?
    ensures var ds := Decode(out, labels, numResultsPerClass, threshold).value;
            && CountLabel(ds, name) == MinInt(Limit(numResultsPerClass), Hits(out, labels, threshold, out.Size(), name))
            && CountLabel(ds, name) <= Limit(numResultsPerClass)
            && (Hits(out, labels, threshold, out.Size(), name) >= 1 ==> CountLabel(ds, name) >= 1)
  {
    DecodeMatchesReference(out, labels, numResultsPerClass, threshold);
    KeptSlotsCount(out, labels, numResultsPerClass, threshold, out.Size(), name);
  }
}
