/**
 * The `FileSize` metric declared in `metrics/mod.rs`. Its implementation,
 * `metrics/file_size.rs`, is not part of this model: the member keeps only what
 * it was fed, and its report is an opaque function of that.
 */
module FileSizeMetric {
  import opened Objects

  /** The metric's state as a value: the objects registered so far. */
  datatype State = State(seen: seq<Object>)

  function Initial(): (s: State)
    ensures s.seen == []
  {
    State([])
  }

  /** Whatever `register` computes depends only on the objects registered, in order. */
  function Registered(s: State, o: Object): (r: State)
    ensures r.seen == s.seen + [o]
  {
    State(s.seen + [o])
  }

  class FileSize {
    var seen: seq<Object>

    ghost function View(): State
      reads this
    {
      State(seen)
    }

    constructor ()
      ensures View() == Initial()
    {
      seen := [];
    }

    method Register(o: Object)
      modifies this
      ensures View() == Registered(old(View()), o)
    {
      seen := seen + [o];
    }

    /** `print`: the section that `report` renders from the objects seen. */
    function Print(out: seq<string>, report: seq<Object> -> seq<string>): (r: seq<string>)
      reads this
      ensures |r| == |out| + |report(seen)| && r[..|out|] == out && r[|out|..] == report(seen)
    {
      out + report(seen)
    }
  }
}
