/** Specification of the SSD detection decoder of the plugin's `parseSSDMobileNet`.

    The inference backend fills three parallel output arrays of NUM_DETECTIONS slots:
    a box `(ymin, xmin, ymax, xmax)`, a class index (already cast to a 32-bit integer)
    and a score.  The decoder walks the slots in their native order, drops slots whose
    score is below the threshold, looks the class up in the label table at offset +1,
    caps the number of results per label, and clamps each kept box's origin to be
    non-negative and its extent at the right and bottom edges (which does not always
    put the box inside the unit square).

    Scores and coordinates are modelled as `real`.  Two reference definitions are given:
    `Select`, which follows the decoder step by step with its per-name counters, and
    `KeptSlots`, which says which slots are kept without any counters; the lemmas in
    module SsdLemmas prove that they agree. */
module SsdSpec {

  /** Number of candidate slots the detector emits. */
  const NUM_DETECTIONS: nat := 10

  /** A Java `int`: the class index after the `(int)` cast, and the label index
      computed from it in 32-bit arithmetic. */
  newtype Int32 = x: int | -0x8000_0000 <= x < 0x8000_0000

  /** Java `int` addition, which wraps around modulo 2^32. */
  function AddInt32(a: Int32, b: Int32): (r: Int32)
    ensures -0x8000_0000 <= a as int + b as int < 0x8000_0000 ==> r as int == a as int + b as int
    ensures a as int + b as int >= 0x8000_0000 ==> r as int == a as int + b as int - 0x1_0000_0000
    ensures a as int + b as int < -0x8000_0000 ==> r as int == a as int + b as int + 0x1_0000_0000
  {
    ((a as int + b as int + 0x8000_0000) % 0x1_0000_0000 - 0x8000_0000) as Int32
  }

  /** One slot of the location output, in the detector's order. */
  datatype Location = Location(ymin: real, xmin: real, ymax: real, xmax: real)

  /** A normalised box as handed back to the caller. */
  datatype Rect = Rect(x: real, y: real, w: real, h: real)

  /** One returned detection. */
  datatype Detection = Detection(rect: Rect, confidenceInClass: real, detectedClass: string)

  /** The only failure of the decode loop: a label lookup outside the label table
      (the label vector throws on an index out of range, which fails the whole call). */
  datatype DecodeError = LabelIndexOutOfRange(slot: nat, index: int)

  datatype Result<T> = Ok(value: T) | Err(error: DecodeError)

  /** The raw output tensors of one inference, as parallel sequences. */
  datatype Outputs = Outputs(locations: seq<Location>, classes: seq<Int32>, scores: seq<real>)
  {
    predicate Valid() {
      |locations| == |classes| == |scores|
    }

    function Size(): (n: nat) {
      |scores|
    }
  }

  function Max(a: real, b: real): (m: real) { if a >= b then a else b }
  function Min(a: real, b: real): (m: real) { if a <= b then a else b }
  function MinInt(a: int, b: int): (m: int) { if a <= b then a else b }

  /** Box clipping of one slot: the origin is clamped to be non-negative and the extent
      is cut at the right and bottom edges, measured from the CLAMPED origin.  The origin
      is not clamped from above, so the result may lie outside the unit square. */
  function ClipBox(loc: Location): (r: Rect)
    // the origin is never negative and never left of / above the raw one
    ensures r.x >= 0.0 && r.y >= 0.0
    ensures r.x >= loc.xmin && r.y >= loc.ymin
    ensures loc.xmin >= 0.0 ==> r.x == loc.xmin
    ensures loc.ymin >= 0.0 ==> r.y == loc.ymin
    // a raw corner left of / above the square is clamped to the edge
    ensures loc.xmin <= 0.0 ==> r.x == 0.0
    ensures loc.ymin <= 0.0 ==> r.y == 0.0
    // the box never reaches past the right or bottom edge
    ensures r.x + r.w <= 1.0 && r.y + r.h <= 1.0
    // the box never reaches past the raw far corner
    ensures r.x + r.w <= loc.xmax && r.y + r.h <= loc.ymax
    // inside the unit square the extent runs exactly to the raw far corner
    ensures loc.xmax <= 1.0 ==> r.w == loc.xmax - r.x
    ensures loc.ymax <= 1.0 ==> r.h == loc.ymax - r.y
    // otherwise it runs exactly to the edge
    ensures loc.xmax >= 1.0 ==> r.x + r.w == 1.0
    ensures loc.ymax >= 1.0 ==> r.y + r.h == 1.0
    // the extent is not always non-negative: exactly when the clamped origin lies
    // inside the unit square and before the far corner
    ensures r.w >= 0.0 <==> (loc.xmin <= 1.0 && r.x <= loc.xmax)
    ensures r.h >= 0.0 <==> (loc.ymin <= 1.0 && r.y <= loc.ymax)
  {
    var y := Max(0.0, loc.ymin);
    var x := Max(0.0, loc.xmin);
    Rect(x, y, Min(1.0 - x, loc.xmax - x), Min(1.0 - y, loc.ymax - y))
  }

  /** The most results one label may get in one call: the first occurrence of a label
      is always accepted, so a cap below one behaves as one. */
  function Limit(numResultsPerClass: int): (m: int)
    ensures m >= 1
    ensures m >= numResultsPerClass
    ensures numResultsPerClass >= 1 ==> m == numResultsPerClass
  {
    if numResultsPerClass < 1 then 1 else numResultsPerClass
  }

  /** The label index slot `j` looks up: class + 1 in Java `int` arithmetic (the table is
      read at offset one), so the largest class wraps to the most negative index. */
  function LabelIndex(out: Outputs, j: nat): (index: int)
    requires out.Valid() && j < out.Size()
    ensures out.classes[j] as int < 0x7fff_ffff ==> index == out.classes[j] as int + 1
    ensures out.classes[j] as int == 0x7fff_ffff ==> index == -0x8000_0000
  {
    AddInt32(out.classes[j], 1) as int
  }

  predicate Resolves(out: Outputs, labels: seq<string>, j: nat)
    requires out.Valid() && j < out.Size()
  {
    0 <= LabelIndex(out, j) < |labels|
  }

  function LabelOf(out: Outputs, labels: seq<string>, j: nat): (name: string)
    requires out.Valid() && j < out.Size() && Resolves(out, labels, j)
  {
    labels[LabelIndex(out, j)]
  }

  /** Slot `j` reaches the label lookup: its score is not below the threshold. */
  predicate Passes(out: Outputs, threshold: real, j: nat)
    requires out.Valid() && j < out.Size()
  {
    !(out.scores[j] < threshold)
  }

  /** Slot `j` reaches the label lookup and the lookup fails. */
  predicate Unresolvable(out: Outputs, labels: seq<string>, threshold: real, j: nat)
    requires out.Valid() && j < out.Size()
  {
    Passes(out, threshold, j) && !Resolves(out, labels, j)
  }

  /** The detection built from slot `j`. */
  function DetectionAt(out: Outputs, labels: seq<string>, j: nat): (d: Detection)
    requires out.Valid() && j < out.Size() && Resolves(out, labels, j)
  {
    Detection(ClipBox(out.locations[j]), out.scores[j], LabelOf(out, labels, j))
  }

  function DetectionsAt(out: Outputs, labels: seq<string>, ks: seq<nat>): (ds: seq<Detection>)
    requires out.Valid()
    requires forall k :: 0 <= k < |ks| ==> ks[k] < out.Size() && Resolves(out, labels, ks[k])
  {
    seq(|ks|, k requires 0 <= k < |ks| => DetectionAt(out, labels, ks[k]))
  }

  predicate StrictlyIncreasing(ks: seq<nat>) {
    forall a, b :: 0 <= a < b < |ks| ==> ks[a] < ks[b]
  }

  // ---------------------------------------------------------------------------
  // The step-by-step reference: per-label counters and the slots kept so far.

  /** The decoder's state after some slots: its per-label counters and the
      indices of the slots it kept, in the order it kept them. */
  datatype Selection = Selection(counters: map<string, int>, kept: seq<nat>)

  /** A label's counter, absent labels counting as zero. */
  function Count(counters: map<string, int>, name: string): (n: int) {
    if name in counters then counters[name] else 0
  }

  /** The cap test: a label not seen yet is always admitted, a seen one only below the cap. */
  predicate Admits(counters: map<string, int>, name: string, numResultsPerClass: int) {
    name !in counters || counters[name] < numResultsPerClass
  }

  /** Processing slot `i` from the state `sel`. */
  function SelectStep(out: Outputs, labels: seq<string>, numResultsPerClass: int, threshold: real,
                      i: nat, sel: Selection): (r: Result<Selection>)
    requires out.Valid() && i < out.Size()
    // the call fails exactly when the slot passes the threshold and its label lookup fails
    ensures r.Err? <==> Unresolvable(out, labels, threshold, i)
    ensures r.Err? ==> r.error == LabelIndexOutOfRange(i, LabelIndex(out, i))
    // a slot below the threshold changes nothing
    ensures !Passes(out, threshold, i) ==> r == Ok(sel)
    // the slot is kept exactly when it passes, resolves and its label is admitted
    ensures r.Ok? && r.value.kept != sel.kept <==>
              Passes(out, threshold, i) && Resolves(out, labels, i)
              && Admits(sel.counters, LabelOf(out, labels, i), numResultsPerClass)
    // a slot not kept leaves every counter as it was
    ensures r.Ok? && r.value.kept == sel.kept ==> r.value.counters == sel.counters
    // a kept slot is appended and raises its own label's counter by exactly one, and no other;
    // the only key it may add to the counters is its own label
    ensures r.Ok? && r.value.kept != sel.kept ==>
              && Resolves(out, labels, i)
              && r.value.kept == sel.kept + [i]
              && r.value.counters.Keys == sel.counters.Keys + {LabelOf(out, labels, i)}
              && Count(r.value.counters, LabelOf(out, labels, i)) == Count(sel.counters, LabelOf(out, labels, i)) + 1
              && (forall l :: l != LabelOf(out, labels, i) ==> Count(r.value.counters, l) == Count(sel.counters, l))
  {
    if out.scores[i] < threshold then Ok(sel)
    else if !Resolves(out, labels, i) then Err(LabelIndexOutOfRange(i, LabelIndex(out, i)))
    else
      var name := LabelOf(out, labels, i);
      if !Admits(sel.counters, name, numResultsPerClass) then Ok(sel)
      else Ok(Selection(sel.counters[name := Count(sel.counters, name) + 1], sel.kept + [i]))
  }

  /** The decoder's state after slots 0 .. i-1, or the failure it met on the way. */
  function Select(out: Outputs, labels: seq<string>, numResultsPerClass: int, threshold: real,
                  i: nat): (r: Result<Selection>)
    requires out.Valid() && i <= out.Size()
    // the kept slots are among those seen, in increasing order, and each passed and resolved
    ensures r.Ok? ==> |r.value.kept| <= i
    ensures r.Ok? ==> StrictlyIncreasing(r.value.kept)
    ensures r.Ok? ==> forall k :: 0 <= k < |r.value.kept| ==>
              && r.value.kept[k] < i
              && Passes(out, threshold, r.value.kept[k])
              && Resolves(out, labels, r.value.kept[k])
    decreases i
  {
    if i == 0 then Ok(Selection(map[], []))
    else
      match Select(out, labels, numResultsPerClass, threshold, i - 1)
      case Err(e) => Err(e)
      case Ok(sel) => SelectStep(out, labels, numResultsPerClass, threshold, i - 1, sel)
  }

  /** The result of one decode call. */
  function Decode(out: Outputs, labels: seq<string>, numResultsPerClass: int, threshold: real): (r: Result<seq<Detection>>)
    requires out.Valid()
    ensures r.Ok? ==> |r.value| <= out.Size()
    // every detection clears the threshold, carries a label of the table and a clipped box
    ensures r.Ok? ==> forall d :: d in r.value ==>
              && d.confidenceInClass >= threshold
              && d.detectedClass in labels
              && d.rect.x >= 0.0 && d.rect.y >= 0.0
              && d.rect.x + d.rect.w <= 1.0 && d.rect.y + d.rect.h <= 1.0
  {
    match Select(out, labels, numResultsPerClass, threshold, out.Size())
    case Err(e) => Err(e)
    case Ok(sel) => Ok(DetectionsAt(out, labels, sel.kept))
  }

  // ---------------------------------------------------------------------------
  // The counter-free reference.

  /** Slot `j` is a threshold-passing slot whose label is `name`. */
  predicate Hit(out: Outputs, labels: seq<string>, threshold: real, j: nat, name: string)
    requires out.Valid() && j < out.Size()
  {
    Passes(out, threshold, j) && Resolves(out, labels, j) && LabelOf(out, labels, j) == name
  }

  /** How many of the slots 0 .. i-1 are threshold-passing slots of `name`. */
  function Hits(out: Outputs, labels: seq<string>, threshold: real, i: nat, name: string): (n: nat)
    requires out.Valid() && i <= out.Size()
  {
    if i == 0 then 0
    else Hits(out, labels, threshold, i - 1, name) + (if Hit(out, labels, threshold, i - 1, name) then 1 else 0)
  }

  /** Slot `j` is kept: it passes, resolves, and fewer than Limit(numResultsPerClass)
      earlier slots passed with the same label. */
  predicate Keeps(out: Outputs, labels: seq<string>, numResultsPerClass: int, threshold: real, j: nat)
    requires out.Valid() && j < out.Size()
  {
    && Passes(out, threshold, j)
    && Resolves(out, labels, j)
    && Hits(out, labels, threshold, j, LabelOf(out, labels, j)) < Limit(numResultsPerClass)
  }

  /** The kept slots among 0 .. i-1, in slot order. */
  function KeptSlots(out: Outputs, labels: seq<string>, numResultsPerClass: int, threshold: real, i: nat): (ks: seq<nat>)
    requires out.Valid() && i <= out.Size()
    ensures |ks| <= i
    ensures forall k :: 0 <= k < |ks| ==> ks[k] < i && Keeps(out, labels, numResultsPerClass, threshold, ks[k])
  {
    if i == 0 then []
    else
      KeptSlots(out, labels, numResultsPerClass, threshold, i - 1)
      + (if Keeps(out, labels, numResultsPerClass, threshold, i - 1) then [i - 1] else [])
  }

  /** How many detections carry `name`. */
  function CountLabel(ds: seq<Detection>, name: string): (n: nat) {
    if ds == [] then 0
    else CountLabel(ds[..|ds| - 1], name) + (if ds[|ds| - 1].detectedClass == name then 1 else 0)
  }
}
