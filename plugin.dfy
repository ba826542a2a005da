/** The plugin object's own state: the interpreter handle, the label table and the
    probability buffer sized to it.  Loading fills the table line by line; closing
    releases the interpreter and drops the table and the buffer. */
module Plugin {

  datatype Option<T> = None | Some(value: T)

  /** What the `tfLite` field refers to: nothing yet, an interpreter in use, or one
      whose `close()` has been called (the field keeps referring to it). */
  datatype InterpreterState = Absent | Live | Released

  class TflitePlugin {
    var tfLite: InterpreterState
    /** The label table; `None` stands for the null reference. */
    var labels: Option<seq<string>>
    /** The classifier's output buffer, one row of one probability per label. */
    var labelProb: array2?<real>

    constructor ()
      ensures tfLite == Absent && labels == None && labelProb == null
    {
      tfLite := Absent;
      labels := None;
      labelProb := null;
    }

    /** Fills the label table from the lines the label file yields, in order, and sizes
        the probability buffer to it.  `lines` stands for the successive results of
        reading the file line by line. */
    method LoadLabels(lines: seq<string>)
      modifies this
      ensures labels == Some(lines)
      ensures labelProb != null && fresh(labelProb)
      ensures labelProb.Length0 == 1 && labelProb.Length1 == |lines|
      ensures forall j :: 0 <= j < |lines| ==> labelProb[0, j] == 0.0
      ensures tfLite == old(tfLite)
    {
      labels := Some([]);
      var i := 0;
      while i < |lines|
        invariant 0 <= i <= |lines|
        invariant labels == Some(lines[..i])
        invariant tfLite == old(tfLite)
      {
        assert lines[..i + 1] == lines[..i] + [lines[i]];
        labels := Some(labels.value + [lines[i]]);
        i := i + 1;
      }
      assert lines[..i] == lines;
      labelProb := new real[1, |labels.value|]((_, _) => 0.0);
    }

    /** Creates the interpreter, then loads the label table. */
    method LoadModel(labelLines: seq<string>) returns (status: string)
      modifies this
      ensures tfLite == Live
      ensures labels == Some(labelLines)
      ensures labelProb != null && fresh(labelProb)
      ensures labelProb.Length0 == 1 && labelProb.Length1 == |labelLines|
      ensures forall j :: 0 <= j < |labelLines| ==> labelProb[0, j] == 0.0
      ensures status == "success"
    {
      tfLite := Live;
      LoadLabels(labelLines);
      status := "success";
    }

    /** Closes the interpreter and clears the label table and the buffer.  With no
        interpreter the call fails before anything changes (a null dereference);
        `backendCloseFails` is the outcome of the interpreter's own `close()`, which
        is not part of this model, and a failure there also leaves the state as it was. */
    method Close(backendCloseFails: bool) returns (ok: bool)
      modifies this
      ensures ok <==> old(tfLite) != Absent && !backendCloseFails
      ensures ok ==> tfLite == Released && labels == None && labelProb == null
      ensures !ok ==> tfLite == old(tfLite) && labels == old(labels) && labelProb == old(labelProb)
    {
      if tfLite == Absent || backendCloseFails {
        return false;
      }
      tfLite := Released;
      labels := None;
      labelProb := null;
      ok := true;
    }
  }
}
